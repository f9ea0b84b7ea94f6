// The packer: tables of objects and class names, a nesting level, and the
// worklist loop of the outermost call.

module Packers {
  import opened Bits
  import opened Bytes
  import opened VarInt
  import opened Typdex
  import opened DyBufs
  import opened Codec
  import opened ObjectGraph
  import opened Records
  import opened Packing

  // Records that fit the buffer's 32-bit positions.
  ghost predicate FitsBuffer(rs: seq<Record>) { AllLegal(rs) && |EncodeAll(rs)| <= UINT_MAX }

  lemma FitsPrefix(a: seq<Record>, b: seq<Record>)
    requires a <= b && FitsBuffer(b)
    ensures FitsBuffer(a)
  {
    var c := b[|a|..];
    assert b == a + c;
    assert forall r :: r in a ==> r in b;
    assert forall r :: r in c ==> r in b;
    EncodeConcat(a, c);
  }

  // A record fits behind records that fit exactly when it is legal and its
  // bytes do.
  lemma OneMore(rs: seq<Record>, r: Record)
    ensures FitsBuffer(rs + [r]) <==>
      FitsBuffer(rs) && r.Legal() && |EncodeAll(rs)| + |r.Encode()| <= UINT_MAX
    ensures FitsBuffer(rs + [r]) ==> EncodeAll(rs + [r]) == EncodeAll(rs) + r.Encode()
  {
    if FitsBuffer(rs + [r]) {
      FitsPrefix(rs, rs + [r]);
      assert (rs + [r])[|rs|] == r;
    }
    if AllLegal(rs) && r.Legal() { EncodeSnoc(rs, r); }
  }

  method AppendRecord(dyb: DyBuf, r: Record)
    requires r.Legal() && dyb.Valid() && dyb.HasRoom(|r.Encode()|)
    modifies dyb, dyb.data
    ensures dyb.Appended(r.Encode())
  {
    hide Drop, HeaderEncode, VarEncode, BlockEncode, StringEncode;
    var h := r.Head();
    ghost var a, b := HeaderEncode(h), r.Payload();
    var _ := AppendTypdex(dyb, h.typ, h.index);
    AppendPayload(dyb, r);
    Regroup(old(dyb.Written()), a, b);
    DropTwice(old(dyb.Pending()), |a|, |b|);
  }

  method AppendPayload(dyb: DyBuf, r: Record)
    requires r.Legal() && dyb.Valid() && dyb.HasRoom(|r.Payload()|)
    modifies dyb, dyb.data
    ensures dyb.Appended(r.Payload())
  {
    match r
    case Version(v) => AppendVarU64(dyb, v);
    case VarInt(_, v) => AppendVarS64(dyb, v);
    case Raw(_, data) => AppendDataWithVarLen(dyb, data);
    case ArrayStart(_, len) => AppendVarU64(dyb, len + 1);
    case ArrayEnd(_) => AppendVarU64(dyb, 0);
    case ObjRef(_, num) => AppendVarU64(dyb, num);
    case ObjStart(_, cls) => AppendVarU64(dyb, cls);
    case ObjEnd(_) =>
    case NextContext(_) =>
    case ClassDb(cls, name) => AppendClassDb(dyb, cls, name);
  }

  method AppendClassDb(dyb: DyBuf, cls: nat, name: text)
    requires cls <= UINT_MAX && dyb.Valid() && dyb.HasRoom(|VarEncode(cls) + StringEncode(name)|)
    modifies dyb, dyb.data
    ensures dyb.Appended(VarEncode(cls) + StringEncode(name))
  {
    hide Drop, VarEncode, StringEncode;
    AppendVarU64(dyb, cls);
    AppendStringWithVarLen(dyb, name);
    Regroup(old(dyb.Written()), VarEncode(cls), StringEncode(name));
    DropTwice(old(dyb.Pending()), |VarEncode(cls)|, |StringEncode(name)|);
  }

  // A table is the inverse of a numbering; the numbering is without repetitions.
  ghost predicate Inverse<T>(table: map<T, nat>, s: seq<T>)
  {
    |table| == |s|
    && (forall i :: 0 <= i < |s| ==> s[i] in table && table[s[i]] == i)
    && (forall x :: x in table ==> table[x] < |s| && s[table[x]] == x)
  }

  ghost predicate Listed<T>(table: map<nat, T>, s: seq<T>)
  {
    |table| == |s|
    && (forall i :: i in table <==> 0 <= i < |s|)
    && (forall i :: 0 <= i < |s| ==> table[i] == s[i])
  }

  lemma SavedName(names: seq<text>, name: text)
    ensures name in names ==> AddName(names, name) == names && NameRecs(names, name) == []
    ensures name !in names ==>
      AddName(names, name) == names + [name] && NameRecs(names, name) == [ClassDb(|names|, name)]
  {}

  lemma InverseGrows<T>(table: map<T, nat>, s: seq<T>, x: T)
    requires Inverse(table, s) && x !in table
    ensures x !in s && Inverse(table[x := |s|], s + [x])
  {}

  lemma ListedGrows<T>(table: map<nat, T>, s: seq<T>, x: T)
    requires Listed(table, s)
    ensures Listed(table[|s| := x], s + [x])
  {}

  class Packer {
    var level: nat
    var objToId: map<Ref, nat>
    var idToObj: map<nat, Ref>
    var classNameToId: map<text, nat>
    const dyb: DyBuf
    ghost var p: Packed

    ghost predicate Tables()
      reads this
    {
      Inverse(objToId, p.ids) && Listed(idToObj, p.ids) && Inverse(classNameToId, p.names)
    }

    ghost predicate Buffered()
      reads this, dyb, dyb.data
    {
      dyb.Valid() && !dyb.fixedCapacity && (FitsBuffer(p.recs) ==> dyb.Written() == EncodeAll(p.recs))
    }

    ghost predicate Valid()
      reads this, dyb, dyb.data
    {
      Buffered() && Tables()
    }

    constructor ()
      ensures Valid() && level == 0 && fresh(dyb) && fresh(dyb.data)
      ensures p == Packed([], [], [Version(1)]) && dyb.Written() == [0x79, 0x01]
    {
      level := 0;
      objToId := map[];
      idToObj := map[];
      classNameToId := map[];
      p := FRESH;
      var d := new DyBuf.Create(64);
      dyb := d;
      VersionBytes();
      AppendRecord(d, Version(PACKER_VERSION_V1));
    }

    // The model stops writing at 4 GiB, where the source's positions wrap around,
    // and at numbers that no header can hold.
    method Emit(r: Record)
      requires Valid()
      modifies `p, dyb, dyb.data
      ensures Valid() && p == old(p).(recs := old(p).recs + [r])
      ensures dyb.data == old(dyb.data) || fresh(dyb.data)
    {
      OneMore(p.recs, r);
      if r.Legal() && dyb.position + |r.Encode()| <= UINT_MAX {
        AppendRecord(dyb, r);
      }
      p := p.(recs := p.recs + [r]);
    }

    // db_save_object_name
    method SaveObjectName(name: text) returns (num: nat)
      requires Valid()
      modifies this`p, this`classNameToId, dyb, dyb.data
      ensures Valid() && (dyb.data == old(dyb.data) || fresh(dyb.data))
      ensures p == Packed(old(p).ids, AddName(old(p).names, name), old(p).recs + NameRecs(old(p).names, name))
      ensures num == NameNum(p.names, name)
      ensures name in old(p).names ==> p == old(p)
    {
      hide AddName, NameRecs, Listed;
      SavedName(p.names, name);
      if name in classNameToId {
        num := classNameToId[name];
        NameNumIs(p.names, name, num);
        assert p.recs + [] == p.recs;
      } else {
        num := |classNameToId|;
        InverseGrows(classNameToId, p.names, name);
        Emit(ClassDb(num, name));
        classNameToId := classNameToId[name := num];
        p := p.(names := p.names + [name]);
        NameNumLast(old(p).names, name);
      }
    }

    // The table half of _packObject_impl: a number for a new object.
    method NumberObject(r: Ref) returns (num: nat)
      requires Valid() && r != NULL
      modifies this`objToId, this`idToObj, this`p
      ensures Valid() && p == old(p).(ids := AddOne(old(p).ids, r))
      ensures num == NumOf(p.ids, r)
    {
      hide NumOf, AllLegal;
      if r in objToId {
        num := objToId[r];
        NumOfIs(p.ids, r, num);
      } else {
        num := |objToId|;
        InverseGrows(objToId, p.ids, r);
        ListedGrows(idToObj, p.ids, r);
        objToId := objToId[r := num];
        idToObj := idToObj[num := r];
        p := p.(ids := p.ids + [r]);
        NumOfLast(old(p).ids, r);
      }
    }

    // Number the object and write the reference.
    method PackReference(key: nat, r: Ref)
      requires Valid() && r != NULL
      modifies this`objToId, this`idToObj, this`p, dyb, dyb.data
      ensures Valid() && p == WithRef(old(p), key, r)
      ensures dyb.data == old(dyb.data) || fresh(dyb.data)
    {
      var num := NumberObject(r);
      Emit(ObjRef(key, num));
    }

    // pack_mmobj: the outermost call writes the bodies of all objects that are
    // not yet written, a nested one only the reference.
    method PackObject(g: Graph, key: nat, r: Ref)
      requires Valid() && Closed(g) && Numbered(p.ids, g) && (r == NULL || r in g)
      modifies this, dyb, dyb.data
      ensures Valid() && level == old(level) && (dyb.data == old(dyb.data) || fresh(dyb.data))
      ensures p == if r == NULL then old(p)
                   else if level == 0 then WithRoot(old(p), g, ObjRoot(key, r)) else WithRef(old(p), key, r)
      decreases if level == 0 then 2 else 0, 1
    {
      if r == NULL { return; }
      level := level + 1;
      PackObjectImpl(g, key, r);
      level := level - 1;
    }

    method PackObjectImpl(g: Graph, key: nat, r: Ref)
      requires Valid() && Closed(g) && Numbered(p.ids, g) && r != NULL && r in g && level >= 1
      modifies this, dyb, dyb.data
      ensures Valid() && level == old(level) && (dyb.data == old(dyb.data) || fresh(dyb.data))
      ensures p == if level == 1 then WithRoot(old(p), g, ObjRoot(key, r)) else WithRef(old(p), key, r)
      decreases if level == 1 then 2 else 0, 0
    {
      hide Buffered, Closed, Listed, Drained;
      var processing := |objToId|;
      PackReference(key, r);
      if level > 1 { return; }
      PackPending(g, processing);
    }

    // The worklist loop.
    method PackPending(g: Graph, start: nat)
      requires Valid() && Closed(g) && Numbered(p.ids, g) && level == 1 && start <= |p.ids|
      modifies this, dyb, dyb.data
      ensures Valid() && level == old(level) && (dyb.data == old(dyb.data) || fresh(dyb.data))
      ensures p == Drained(old(p), g, start)
      decreases 1, 3
    {
      hide Buffered, Inverse, WithBody, Numbered, Closed, Drained;
      var processing := start;
      while |idToObj| > processing
        invariant Valid() && level == 1 && Numbered(p.ids, g) && processing <= |p.ids|
        invariant Drained(p, g, processing) == Drained(old(p), g, start)
        invariant dyb.data == old(dyb.data) || fresh(dyb.data)
        decreases |g| - processing
      {
        DrainStep(p, g, processing);
        PackBody(g, processing);
        processing := processing + 1;
      }
      DrainStep(p, g, processing);
    }

    lemma TableOf(g: Graph, i: nat)
      requires Tables() && Numbered(p.ids, g) && i < |p.ids|
      ensures i in idToObj && idToObj[i] == p.ids[i] && idToObj[i] in g
    {}

    // One turn of the loop: the object with number i.
    method PackBody(g: Graph, i: nat)
      requires Valid() && Closed(g) && Numbered(p.ids, g) && i < |p.ids| && level == 1
      modifies this, dyb, dyb.data
      ensures Valid() && level == old(level) && (dyb.data == old(dyb.data) || fresh(dyb.data))
      ensures p == WithBody(old(p), g, i)
      decreases 1, 2
    {
      hide Buffered, Tables, Closed, WithBody, Headed, NodePacked, Numbered;
      TableOf(g, i);
      ghost var p0 := p;
      var n := g[idToObj[i]];
      HeadedFacts(p0, g, i, n);
      var cls := StartBody(n, i);
      PackNode(g, n, cls);
      Emit(ObjEnd(i));
      BodySteps(p0, g, i, n, cls);
    }

    // The class name, if it is new, and the start tag.
    method StartBody(n: Node, i: nat) returns (cls: nat)
      requires Valid()
      modifies this`p, this`classNameToId, dyb, dyb.data
      ensures Valid() && (dyb.data == old(dyb.data) || fresh(dyb.data))
      ensures NodeName(n) in p.names && cls == NameNum(p.names, NodeName(n)) && p == Headed(old(p), n, i, cls)
    {
      hide Buffered, Tables, AddName, NameRecs, NodeName;
      cls := SaveObjectName(NodeName(n));
      Emit(ObjStart(i, cls));
    }

    // pack_##stru_name: the context of the class, then its fields.
    method PackNode(g: Graph, n: Node, ghost cls: nat)
      requires Valid() && Closed(g) && Numbered(p.ids, g) && level == 1
      requires (forall r :: r in Children(n) ==> r in g) && NodeName(n) in p.names
        && cls == NameNum(p.names, NodeName(n))
      modifies this, dyb, dyb.data
      ensures Valid() && level == old(level) && (dyb.data == old(dyb.data) || fresh(dyb.data))
      ensures p == NodePacked(old(p), n, cls)
      decreases 1, 1
    {
      hide Buffered, Tables, Closed, AddName, NameRecs, NameNum, FieldRecs, ChildNums, AddAll;
      var num := SaveObjectName(NodeName(n));
      Emit(NextContext(num));
      assert p == old(p).(recs := old(p).recs + [NextContext(cls)]);
      PackFields(g, n);
    }

    // packMMInt, packMMLong, packMMString, packMMData, packMMList, packMMMap.
    method PackFields(g: Graph, n: Node)
      requires Valid() && Closed(g) && Numbered(p.ids, g) && level == 1
      requires (forall r :: r in Children(n) ==> r in g)
      modifies this, dyb, dyb.data
      ensures Valid() && level == old(level) && (dyb.data == old(dyb.data) || fresh(dyb.data))
      ensures p == FieldsPacked(old(p), n)
      decreases 1, 0, 2
    {
      match n
      case IntN(i) => Emit(VarInt(0, i));
      case LongN(l) => Emit(VarInt(0, l));
      case StringN(s) => Emit(Raw(0, s + [0]));
      case DataN(d) => Emit(Raw(0, d));
      case ListN(items) => PackMMList(g, items);
      case MapN(sorted, entries) => PackMMMap(g, sorted, entries);
    }

    method PackMMList(g: Graph, items: seq<Ref>)
      requires Valid() && Closed(g) && Numbered(p.ids, g) && level == 1
      requires (forall r :: r in NonNull(items) ==> r in g)
      modifies this, dyb, dyb.data
      ensures Valid() && level == old(level) && (dyb.data == old(dyb.data) || fresh(dyb.data))
      ensures p == FieldsPacked(old(p), ListN(items))
      decreases 1, 0, 1
    {
      hide Buffered, Tables, Closed, NonNull, AddAll, NumOf, Numbers, ChildRecords, RefRecs, FieldRecs, ChildNums, At;
      ghost var kids, p0 := NonNull(items), p;
      ghost var rs := RefRecs(ChildNums(p.ids, ListN(items)));
      Emit(ArrayStart(0, |items|));
      ghost var base := p.recs;
      ListRecords(p0, items);
      SameLength(rs, p0.ids, kids, false);
      AtStart(p, p0, kids, rs);
      PackListItems(g, items, p0, base, rs);
      AllEmitted(p, p0, kids, base, rs);
      Emit(ArrayEnd(0));
      assert p.recs == ((p0.recs + [ArrayStart(0, |items|)]) + rs) + [ArrayEnd(0)];
    }

    method PackListItems(g: Graph, items: seq<Ref>, ghost p0: Packed, ghost base: seq<Record>, ghost rs: seq<Record>)
      requires Valid() && Closed(g) && Numbered(p.ids, g) && level == 1
      requires (forall r :: r in NonNull(items) ==> r in g) && At(p, p0, NonNull(items), base, rs, 0)
      requires ChildRecords(rs, p0.ids, NonNull(items), false)
      modifies this, dyb, dyb.data
      ensures Valid() && level == old(level) && (dyb.data == old(dyb.data) || fresh(dyb.data))
      ensures At(p, p0, NonNull(items), base, rs, |rs|)
      decreases 1, 0, 0
    {
      ghost var kids, k := NonNull(items), 0;
      for i := 0 to |items|
        invariant Valid() && level == 1 && Numbered(p.ids, g) && k <= |kids| && At(p, p0, kids, base, rs, k)
        invariant NonNull(items[i..]) == kids[k..]
        invariant dyb.data == old(dyb.data) || fresh(dyb.data)
      {
        NonNullStep(items, i, kids, k);
        if items[i] == NULL {
          PackObject(g, 0, items[i]);
        } else {
          PackChild(g, 0, items[i], p0, kids, base, rs, k);
          k := k + 1;
        }
      }
    }

    method PackMMMap(g: Graph, sorted: bool, entries: seq<(Ref, Ref)>)
      requires Valid() && Closed(g) && Numbered(p.ids, g) && level == 1
      requires (forall r :: r in Flat(entries) ==> r in g)
      modifies this, dyb, dyb.data
      ensures Valid() && level == old(level) && (dyb.data == old(dyb.data) || fresh(dyb.data))
      ensures p == FieldsPacked(old(p), MapN(sorted, entries))
      decreases 1, 0, 1
    {
      hide Buffered, Tables, Closed, Flat, AddAll, NumOf, Numbers, ChildRecords, PairRecs, FieldRecs, ChildNums, At;
      ghost var kids, p0 := Flat(entries), p;
      ghost var rs := PairRecs(ChildNums(p.ids, MapN(sorted, entries)));
      Emit(VarInt(0, if sorted then 1 else 0));
      Emit(ArrayStart(1, 2 * |entries|));
      ghost var base := p.recs;
      MapRecords(p0, sorted, entries);
      SameLength(rs, p0.ids, kids, true);
      AtStart(p, p0, kids, rs);
      PackEntries(g, entries, p0, base, rs);
      AllEmitted(p, p0, kids, base, rs);
      Emit(ArrayEnd(1));
      assert p.recs == (((p0.recs + [VarInt(0, if sorted then 1 else 0)]) + [ArrayStart(1, 2 * |entries|)]) + rs)
                     + [ArrayEnd(1)];
    }

    method PackEntries(g: Graph, entries: seq<(Ref, Ref)>, ghost p0: Packed, ghost base: seq<Record>,
                       ghost rs: seq<Record>)
      requires Valid() && Closed(g) && Numbered(p.ids, g) && level == 1
      requires (forall r :: r in Flat(entries) ==> r in g) && At(p, p0, Flat(entries), base, rs, 0)
      requires ChildRecords(rs, p0.ids, Flat(entries), true)
      modifies this, dyb, dyb.data
      ensures Valid() && level == old(level) && (dyb.data == old(dyb.data) || fresh(dyb.data))
      ensures At(p, p0, Flat(entries), base, rs, |rs|)
      decreases 1, 0, 0
    {
      hide Buffered, Tables, Closed, Flat, AddAll, NumOf, ChildRecords;
      FlatLength(entries);
      for i := 0 to |entries|
        invariant Valid() && level == 1 && Numbered(p.ids, g) && At(p, p0, Flat(entries), base, rs, 2 * i)
        invariant dyb.data == old(dyb.data) || fresh(dyb.data)
      {
        EntryRecords(entries, i, rs, p0.ids);
        PackChild(g, 0, entries[i].0, p0, Flat(entries), base, rs, 2 * i);
        PackChild(g, 1, entries[i].1, p0, Flat(entries), base, rs, 2 * i + 1);
      }
    }

    // The k-th child of the node being written.
    method PackChild(g: Graph, key: nat, r: Ref,
                     ghost p0: Packed, ghost kids: seq<Ref>, ghost base: seq<Record>, ghost rs: seq<Record>,
                     ghost k: nat)
      requires Valid() && Closed(g) && level == 1
      requires Numbered(p.ids, g) && r in g && At(p, p0, kids, base, rs, k) && k < |kids| && kids[k] == r
      requires r in AddAll(p0.ids, kids) && rs[k] == ObjRef(key, NumOf(AddAll(p0.ids, kids), r))
      modifies this, dyb, dyb.data
      ensures Valid() && level == old(level) && (dyb.data == old(dyb.data) || fresh(dyb.data))
      ensures At(p, p0, kids, base, rs, k + 1) && Numbered(p.ids, g)
      decreases 0, 2
    {
      ChildWritten(g, key, r, p, p0, kids, base, rs, k);
      PackObject(g, key, r);
    }
  }

  // The first k children of a node have been written: p0 was before its fields.
  ghost predicate At(p: Packed, p0: Packed, kids: seq<Ref>, base: seq<Record>, rs: seq<Record>, k: nat)
  {
    k <= |kids| == |rs| && p.names == p0.names && p.ids == AddAll(p0.ids, kids[..k]) && p.recs == base + rs[..k]
  }

  lemma ChildWritten(g: Graph, key: nat, r: Ref, p: Packed, p0: Packed, kids: seq<Ref>, base: seq<Record>,
                     rs: seq<Record>, k: nat)
    requires At(p, p0, kids, base, rs, k) && k < |kids| && kids[k] == r != NULL && r in g && Numbered(p.ids, g)
    requires r in AddAll(p0.ids, kids) && rs[k] == ObjRef(key, NumOf(AddAll(p0.ids, kids), r))
    ensures At(WithRef(p, key, r), p0, kids, base, rs, k + 1) && Numbered(WithRef(p, key, r).ids, g)
  {
    hide AddAll, NumOf;
    NextChild(p0.ids, kids, k, p.ids);
    assert p.recs + [rs[k]] == base + rs[..k + 1];
  }

  lemma AtStart(p: Packed, p0: Packed, kids: seq<Ref>, rs: seq<Record>)
    requires p.names == p0.names && p.ids == p0.ids && |kids| == |rs|
    ensures At(p, p0, kids, p.recs, rs, 0)
  {
    assert kids[..0] == [] && p.recs + rs[..0] == p.recs;
  }

  lemma AllEmitted(p: Packed, p0: Packed, kids: seq<Ref>, base: seq<Record>, rs: seq<Record>)
    requires At(p, p0, kids, base, rs, |rs|)
    ensures p.ids == AddAll(p0.ids, kids) && p.names == p0.names && p.recs == base + rs
  {
    assert kids[..|rs|] == kids && rs[..|rs|] == rs;
  }

  // One reference per child, with the child's final number, under the key of
  // its place.
  ghost predicate ChildRecords(rs: seq<Record>, ids: seq<Ref>, kids: seq<Ref>, inPairs: bool)
  {
    |rs| == |kids|
    && forall k :: 0 <= k < |kids| ==>
      kids[k] in AddAll(ids, kids) && rs[k] == ObjRef(if inPairs then k % 2 else 0, NumOf(AddAll(ids, kids), kids[k]))
  }

  lemma SameLength(rs: seq<Record>, ids: seq<Ref>, kids: seq<Ref>, inPairs: bool)
    requires ChildRecords(rs, ids, kids, inPairs)
    ensures |rs| == |kids|
  {}

  lemma ListRecords(p: Packed, items: seq<Ref>)
    ensures var rs := RefRecs(ChildNums(p.ids, ListN(items)));
      ChildRecords(rs, p.ids, NonNull(items), false)
      && FieldsPacked(p, ListN(items)).recs == ((p.recs + [ArrayStart(0, |items|)]) + rs) + [ArrayEnd(0)]
  {
    hide ChildRecords, NonNull, AddAll, Numbers, RefRecs;
    var nums := ChildNums(p.ids, ListN(items));
    ChildNumbers(p.ids, NonNull(items));
    Around(p.recs, ArrayStart(0, |items|), RefRecs(nums), ArrayEnd(0));
  }

  lemma MapRecords(p: Packed, sorted: bool, entries: seq<(Ref, Ref)>)
    ensures var rs := PairRecs(ChildNums(p.ids, MapN(sorted, entries)));
      ChildRecords(rs, p.ids, Flat(entries), true)
      && FieldsPacked(p, MapN(sorted, entries)).recs ==
         (((p.recs + [VarInt(0, if sorted then 1 else 0)]) + [ArrayStart(1, 2 * |entries|)]) + rs) + [ArrayEnd(1)]
  {
    hide ChildRecords, Flat, AddAll, Numbers, PairRecs;
    var nums := ChildNums(p.ids, MapN(sorted, entries));
    ChildNumbers(p.ids, Flat(entries));
    AroundTwo(p.recs, VarInt(0, if sorted then 1 else 0), ArrayStart(1, 2 * |entries|), PairRecs(nums), ArrayEnd(1));
  }

  lemma ChildNumbers(ids: seq<Ref>, kids: seq<Ref>)
    ensures forall r :: r in kids ==> r in AddAll(ids, kids)
    ensures ChildRecords(RefRecs(Numbers(AddAll(ids, kids), kids)), ids, kids, false)
    ensures ChildRecords(PairRecs(Numbers(AddAll(ids, kids), kids)), ids, kids, true)
  {
    AddAllExtends(ids, kids);
  }

  lemma Around(a: seq<Record>, x: Record, rs: seq<Record>, y: Record)
    ensures ((a + [x]) + rs) + [y] == a + ([x] + rs + [y])
  {}

  lemma AroundTwo(a: seq<Record>, x: Record, x': Record, rs: seq<Record>, y: Record)
    ensures (((a + [x]) + [x']) + rs) + [y] == a + ([x, x'] + rs + [y])
  {}

  lemma EntryRecords(entries: seq<(Ref, Ref)>, i: nat, rs: seq<Record>, ids: seq<Ref>)
    requires i < |entries| && ChildRecords(rs, ids, Flat(entries), true)
    ensures 2 * i + 1 < |Flat(entries)|
    ensures var kids, all := Flat(entries), AddAll(ids, Flat(entries));
      kids[2 * i] == entries[i].0 && entries[i].0 in all && rs[2 * i] == ObjRef(0, NumOf(all, entries[i].0))
      && kids[2 * i + 1] == entries[i].1 && entries[i].1 in all && rs[2 * i + 1] == ObjRef(1, NumOf(all, entries[i].1))
  {
    FlatAt(entries, i);
    hide Flat, AddAll, NumOf;
    assert (2 * i) % 2 == 0 && (2 * i + 1) % 2 == 1;
  }

  lemma NonNullStep(items: seq<Ref>, i: nat, kids: seq<Ref>, k: nat)
    requires i < |items| && k <= |kids| && NonNull(items[i..]) == kids[k..]
    ensures items[i] == NULL ==> NonNull(items[i + 1..]) == kids[k..]
    ensures items[i] != NULL ==> k < |kids| && kids[k] == items[i] && NonNull(items[i + 1..]) == kids[k + 1..]
  {
    assert items[i..][1..] == items[i + 1..];
    if items[i] != NULL { assert kids[k..] == [items[i]] + NonNull(items[i + 1..]); }
  }

  lemma DrainStep(p: Packed, g: Graph, i: nat)
    requires Closed(g) && Numbered(p.ids, g) && i <= |p.ids|
    ensures |p.ids| <= |g|
    ensures Drained(p, g, i) == if i == |p.ids| then p else Drained(WithBody(p, g, i), g, i + 1)
  {
    NumberedBound(p.ids, g);
  }

  // The steps of PackBody.
  ghost function Headed(p: Packed, n: Node, i: nat, cls: nat): Packed
  {
    Packed(p.ids, AddName(p.names, NodeName(n)), p.recs + NameRecs(p.names, NodeName(n)) + [ObjStart(i, cls)])
  }

  lemma HeadedFacts(p: Packed, g: Graph, i: nat, n: Node)
    requires Closed(g) && Numbered(p.ids, g) && i < |p.ids| && n == g[p.ids[i]]
    ensures forall r :: r in Children(n) ==> r in g
    ensures forall cls ::
      Headed(p, n, i, cls).ids == p.ids && Headed(p, n, i, cls).names == AddName(p.names, NodeName(n))
  {}

  lemma BodySteps(p: Packed, g: Graph, i: nat, n: Node, cls: nat)
    requires Closed(g) && Numbered(p.ids, g) && i < |p.ids| && n == g[p.ids[i]]
    requires cls == NameNum(AddName(p.names, NodeName(n)), NodeName(n))
    ensures var q := NodePacked(Headed(p, n, i, cls), n, cls);
      q.(recs := q.recs + [ObjEnd(i)]) == WithBody(p, g, i)
  {
    Assemble(p.recs, NameRecs(p.names, NodeName(n)), ObjStart(i, cls), NextContext(cls),
             FieldRecs(n, ChildNums(p.ids, n)), ObjEnd(i));
  }

  lemma Assemble(a: seq<Record>, b: seq<Record>, s: Record, c: Record, f: seq<Record>, e: Record)
    ensures (((a + b + [s]) + [c]) + f) + [e] == a + (b + ([s, c] + f + [e]))
  {}

  // The numbers of all children once the node's fields are written.
  ghost function ChildNums(ids: seq<Ref>, n: Node): seq<nat>
  {
    AddAllExtends(ids, Children(n));
    Numbers(AddAll(ids, Children(n)), Children(n))
  }

  ghost function FieldsPacked(p: Packed, n: Node): Packed
  {
    Packed(AddAll(p.ids, Children(n)), p.names, p.recs + FieldRecs(n, ChildNums(p.ids, n)))
  }

  ghost function NodePacked(p: Packed, n: Node, cls: nat): Packed
  {
    FieldsPacked(p.(recs := p.recs + [NextContext(cls)]), n)
  }

  lemma VersionBytes()
    ensures var v := Version(PACKER_VERSION_V1);
      v.Legal() && v.Encode() == [0x79, 0x01] && AllLegal([v]) && EncodeAll([v]) == v.Encode()
  {
    RecordBytes(Version(PACKER_VERSION_V1));
    SmallNumber(1);
    EncodeSnoc([], Version(PACKER_VERSION_V1));
    assert [] + [Version(PACKER_VERSION_V1)] == [Version(PACKER_VERSION_V1)];
  }
}
