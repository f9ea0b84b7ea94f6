// Running the packer's records: each body leaves behind exactly the containers
// that describe its object, and the stack as it was.

module PackRun {
  import opened Bytes
  import opened Options
  import opened ObjectGraph
  import opened Records
  import opened Machines
  import opened Packing

  function NumVals(nums: seq<nat>): (r: seq<Val>)
    ensures |r| == |nums| && forall i :: 0 <= i < |r| ==> r[i] == NumVal(nums[i])
  {
    seq(|nums|, i requires 0 <= i < |nums| => NumVal(nums[i]))
  }

  // The integer keys of a node's context; l is the place of its array.
  function FieldInts(n: Node, l: Loc): map<nat, Val>
  {
    match n
    case IntN(i) => map[0 := LongVal(i)]
    case LongN(v) => map[0 := LongVal(v)]
    case StringN(s) => map[0 := DataVal(s + [0])]
    case DataN(d) => map[0 := DataVal(d)]
    case ListN(_) => map[0 := Ptr(l)]
    case MapN(sorted, _) => map[0 := LongVal(if sorted then 1 else 0), 1 := Ptr(l)]
  }

  function ArrayPart(n: Node, nums: seq<nat>): seq<Cont>
  {
    if n.ListN? || n.MapN? then [ListC(NumVals(nums))] else []
  }

  function PropsOf(name: text, context: Loc): Cont
  {
    MapC(false, map[], map[CLASS_NAME := NameVal(name), name := Ptr(context)])
  }

  // The containers of one object, the first of them at place l.
  function BodyConts(n: Node, l: Loc, nums: seq<nat>): seq<Cont>
  {
    [PropsOf(NodeName(n), l + 1), MapC(true, FieldInts(n, l + 2), map[])] + ArrayPart(n, nums)
  }

  lemma NamesDiffer(n: Node)
    ensures NodeName(n) != CLASS_NAME
  {
    assert CLASS_NAME[0] == 95 && NodeName(n)[0] == 77;
  }

  lemma {:induction false} RunRefs(m: Machine, rs: seq<Record>, nums: seq<nat>)
    requires Shaped(m) && HasTop(m.stack, m.store) && m.store[Top(m)].ListC? && Top(m) !in m.stack[..|m.stack| - 1]
    requires m.cur.Some? && |m.stack| >= 4
    requires |rs| == |nums| && forall i :: 0 <= i < |rs| ==> rs[i].ObjRef? && rs[i].num == nums[i]
    ensures RunOk(m, rs, m.(store := m.store[Top(m) := ListC(m.store[Top(m)].items + NumVals(nums))]))
    decreases |rs|
  {
    var l, vs := Top(m), m.store[Top(m)].items;
    if rs == [] {
      assert vs + NumVals(nums) == vs && m.store[l := m.store[l]] == m.store;
    } else {
      var m' := PutInt(m, rs[0].key, NumVal(nums[0]));
      assert Step(m, rs[0]) == Some(m');
      assert Shaped(m');
      RunRefs(m', rs[1..], nums[1..]);
      assert vs + NumVals(nums) == (vs + [NumVal(nums[0])]) + NumVals(nums[1..]);
      assert m'.store[l := ListC(vs + NumVals(nums))] == m.store[l := ListC(vs + NumVals(nums))];
    }
  }

  // Inside an object whose context, at place b + 1, is the newest container.
  ghost predicate Inside(m: Machine, b: Loc)
  {
    Shaped(m) && m.cur.Some? && b > 0 && |m.store| == b + 2 && m.stack == [ROOTS, b, b + 1]
  }

  ghost predicate InContext(m: Machine, b: Loc, ints: map<nat, Val>)
  {
    Inside(m, b) && m.store[b + 1] == MapC(true, ints, map[])
  }

  // The machine with more keys in that context and more containers behind it.
  ghost function Extended(m: Machine, b: Loc, ints: map<nat, Val>, more: seq<Cont>): Machine
    requires |m.store| == b + 2
  {
    m.(store := m.store[b + 1 := MapC(true, ints, map[])] + more)
  }

  lemma RunArray(m: Machine, b: Loc, ints: map<nat, Val>, key: nat, len: nat, rs: seq<Record>, nums: seq<nat>)
    requires InContext(m, b, ints)
    requires |rs| == |nums| && forall i :: 0 <= i < |rs| ==> rs[i].ObjRef? && rs[i].num == nums[i]
    ensures RunOk(m, [ArrayStart(key, len)] + rs + [ArrayEnd(key)],
                  Extended(m, b, ints[key := Ptr(b + 2)], [ListC(NumVals(nums))]))
  {
    var ints' := ints[key := Ptr(b + 2)];
    var m1 := InArray(m, b, ints', []);
    var m2 := InArray(m, b, ints', NumVals(nums));
    var m3 := Extended(m, b, ints', [ListC(NumVals(nums))]);
    OpenArray(m, b, ints, key, len);
    FillArray(m, b, ints', rs, nums);
    RunConcat(m, [ArrayStart(key, len)], m1, rs, m2);
    CloseArray(m, b, ints', NumVals(nums), key);
    RunConcat(m, [ArrayStart(key, len)] + rs, m2, [ArrayEnd(key)], m3);
  }

  // With the array of that context open and holding vs.
  ghost function InArray(m: Machine, b: Loc, ints: map<nat, Val>, vs: seq<Val>): Machine
    requires |m.store| == b + 2
  {
    Extended(m, b, ints, [ListC(vs)]).(stack := [ROOTS, b, b + 1, b + 2])
  }

  lemma OpenArray(m: Machine, b: Loc, ints: map<nat, Val>, key: nat, len: nat)
    requires InContext(m, b, ints)
    ensures RunOk(m, [ArrayStart(key, len)], InArray(m, b, ints[key := Ptr(b + 2)], []))
  {
    var m' := InArray(m, b, ints[key := Ptr(b + 2)], []);
    assert m.stack + [b + 2] == m'.stack;
    assert Step(m, ArrayStart(key, len)) == Some(m');
    RunOne(m, ArrayStart(key, len), m');
  }

  lemma ArrayIsShaped(m: Machine, b: Loc, ints: map<nat, Val>)
    requires Inside(m, b)
    ensures var m1 := InArray(m, b, ints, []);
      Shaped(m1) && HasTop(m1.stack, m1.store) && m1.store[Top(m1)] == ListC([]) && Top(m1) == b + 2
      && Top(m1) !in m1.stack[..|m1.stack| - 1] && m1.cur.Some? && |m1.stack| == 4
  {}

  lemma FillArray(m: Machine, b: Loc, ints: map<nat, Val>, rs: seq<Record>, nums: seq<nat>)
    requires Inside(m, b)
    requires |rs| == |nums| && forall i :: 0 <= i < |rs| ==> rs[i].ObjRef? && rs[i].num == nums[i]
    ensures RunOk(InArray(m, b, ints, []), rs, InArray(m, b, ints, NumVals(nums)))
  {
    hide RunOk, NumVals, Step;
    var m1, m2 := InArray(m, b, ints, []), InArray(m, b, ints, NumVals(nums));
    ArrayIsShaped(m, b, ints);
    RunRefs(m1, rs, nums);
    assert [] + NumVals(nums) == NumVals(nums);
    assert m1.store[b + 2 := ListC(NumVals(nums))] == m2.store;
  }

  lemma CloseArray(m: Machine, b: Loc, ints: map<nat, Val>, vs: seq<Val>, key: nat)
    requires Inside(m, b)
    ensures RunOk(InArray(m, b, ints, vs), [ArrayEnd(key)], Extended(m, b, ints, [ListC(vs)]))
  {
    var m2 := InArray(m, b, ints, vs);
    assert m2.stack[..3] == m.stack;
    RunOne(m2, ArrayEnd(key), Extended(m, b, ints, [ListC(vs)]));
  }

  lemma RunNumber(m: Machine, b: Loc, key: nat, r: Record, v: Val)
    requires InContext(m, b, map[])
    requires (r.VarInt? && r.key == key && v == LongVal(r.v)) || (r.Raw? && r.key == key && v == DataVal(r.data))
    ensures RunOk(m, [r], Extended(m, b, map[key := v], []))
    ensures InContext(Extended(m, b, map[key := v], []), b, map[key := v])
  {
    var m' := Extended(m, b, map[key := v], []);
    assert Step(m, r).value.store == m'.store;
    RunOne(m, r, m');
  }

  lemma RunFields(m: Machine, b: Loc, n: Node, nums: seq<nat>)
    requires InContext(m, b, map[])
    ensures RunOk(m, FieldRecs(n, nums), Extended(m, b, FieldInts(n, b + 2), ArrayPart(n, nums)))
  {
    match n
    case IntN(i) => RunNumber(m, b, 0, VarInt(0, i), LongVal(i));
    case LongN(l) => RunNumber(m, b, 0, VarInt(0, l), LongVal(l));
    case StringN(s) => RunNumber(m, b, 0, Raw(0, s + [0]), DataVal(s + [0]));
    case DataN(d) => RunNumber(m, b, 0, Raw(0, d), DataVal(d));
    case ListN(items) => RunArray(m, b, map[], 0, |items|, RefRecs(nums), nums);
    case MapN(sorted, entries) => RunMapFields(m, b, sorted, entries, nums);
  }

  lemma PairsAreRefs(nums: seq<nat>)
    ensures |PairRecs(nums)| == |nums|
    ensures forall i :: 0 <= i < |nums| ==> PairRecs(nums)[i].ObjRef? && PairRecs(nums)[i].num == nums[i]
  {}

  lemma RunMapFields(m: Machine, b: Loc, sorted: bool, entries: seq<(Ref, Ref)>, nums: seq<nat>)
    requires InContext(m, b, map[])
    ensures RunOk(m, FieldRecs(MapN(sorted, entries), nums),
                  Extended(m, b, FieldInts(MapN(sorted, entries), b + 2), [ListC(NumVals(nums))]))
  {
    hide RunOk, NumVals, Extended, PairRecs;
    var flag := if sorted then 1 else 0;
    RunNumber(m, b, 0, VarInt(0, flag), LongVal(flag));
    PairsAreRefs(nums);
    NumberThenArray(m, b, map[0 := LongVal(flag)], [VarInt(0, flag)], 2 * |entries|, PairRecs(nums), nums);
    assert map[0 := LongVal(flag)][1 := Ptr(b + 2)] == FieldInts(MapN(sorted, entries), b + 2);
    assert [VarInt(0, flag)] + ([ArrayStart(1, 2 * |entries|)] + PairRecs(nums) + [ArrayEnd(1)])
        == FieldRecs(MapN(sorted, entries), nums);
  }

  lemma NumberThenArray(m: Machine, b: Loc, ints: map<nat, Val>, first: seq<Record>, len: nat, rs: seq<Record>,
                        nums: seq<nat>)
    requires |m.store| == b + 2 && RunOk(m, first, Extended(m, b, ints, []))
    requires InContext(Extended(m, b, ints, []), b, ints)
    requires |rs| == |nums| && forall i :: 0 <= i < |rs| ==> rs[i].ObjRef? && rs[i].num == nums[i]
    ensures RunOk(m, first + ([ArrayStart(1, len)] + rs + [ArrayEnd(1)]),
                  Extended(m, b, ints[1 := Ptr(b + 2)], [ListC(NumVals(nums))]))
  {
    var m1 := Extended(m, b, ints, []);
    var ints', more := ints[1 := Ptr(b + 2)], [ListC(NumVals(nums))];
    RunArray(m1, b, ints, 1, len, rs, nums);
    ExtendTwice(m, b, ints, ints', more);
    RunConcat(m, first, m1, [ArrayStart(1, len)] + rs + [ArrayEnd(1)], Extended(m1, b, ints', more));
  }

  lemma ExtendTwice(m: Machine, b: Loc, ints: map<nat, Val>, ints': map<nat, Val>, more: seq<Cont>)
    requires |m.store| == b + 2
    ensures Extended(Extended(m, b, ints, []), b, ints', more) == Extended(m, b, ints', more)
  {
    assert Extended(Extended(m, b, ints, []), b, ints', more).store == Extended(m, b, ints', more).store;
  }

  // One whole body, from stack [roots] to stack [roots].
  lemma RunBody(m: Machine, n: Node, i: nat, cls: nat, nums: seq<nat>)
    requires Shaped(m) && m.cur.None? && cls in m.names && m.names[cls] == NodeName(n)
    ensures RunOk(m, BodyRecs(n, i, cls, nums),
                  m.(store := m.store + BodyConts(n, |m.store|, nums), objects := m.objects[i := Props(|m.store|)]))
  {
    var b := |m.store|;
    var m2 := Begun(m, n, i);
    BeginBody(m, n, i, cls);
    var m3 := Extended(m2, b, FieldInts(n, b + 2), ArrayPart(n, nums));
    RunFields(m2, b, n, nums);
    EndIsShaped(m2, FieldRecs(n, nums), m3);
    RunConcat(m, [ObjStart(i, cls), NextContext(cls)], m2, FieldRecs(n, nums), m3);
    var m4 := m3.(stack := [ROOTS], cur := None);
    CloseBody(m3, b, i, m4);
    RunConcat(m, [ObjStart(i, cls), NextContext(cls)] + FieldRecs(n, nums), m3, [ObjEnd(i)], m4);
    BodyStore(m, n, i, nums);
    assert m.stack == [ROOTS];
    assert m4 == m.(store := m.store + BodyConts(n, b, nums), objects := m.objects[i := Props(b)]);
  }

  lemma BodyStore(m: Machine, n: Node, i: nat, nums: seq<nat>)
    ensures var b := |m.store|;
      Extended(Begun(m, n, i), b, FieldInts(n, b + 2), ArrayPart(n, nums)).store == m.store + BodyConts(n, b, nums)
  {}

  // After the start of a body and the switch to its context.
  ghost function Begun(m: Machine, n: Node, i: nat): (m': Machine)
    ensures |m'.store| == |m.store| + 2
  {
    var b := |m.store|;
    Machine(m.store + [PropsOf(NodeName(n), b + 1), MapC(true, map[], map[])], [ROOTS, b, b + 1],
            m.objects[i := Props(b)], m.names, Some(Current(b, i)))
  }

  lemma BeginBody(m: Machine, n: Node, i: nat, cls: nat)
    requires Shaped(m) && m.cur.None? && cls in m.names && m.names[cls] == NodeName(n)
    ensures RunOk(m, [ObjStart(i, cls), NextContext(cls)], Begun(m, n, i))
    ensures InContext(Begun(m, n, i), |m.store|, map[])
  {
    var b, name := |m.store|, NodeName(n);
    var m1 := Opened(m, i, name);
    assert m1.stack == [ROOTS, b];
    RunOne(m, ObjStart(i, cls), m1);
    NamesDiffer(n);
    OpenContext(m1, b, name, cls, Begun(m, n, i));
    RunConcat(m, [ObjStart(i, cls)], m1, [NextContext(cls)], Begun(m, n, i));
    assert [ObjStart(i, cls)] + [NextContext(cls)] == [ObjStart(i, cls), NextContext(cls)];
  }

  lemma OpenContext(m: Machine, b: Loc, name: text, cls: nat, m': Machine)
    requires Shaped(m) && m.cur.Some? && m.cur.value.loc == b && b > 0 && |m.store| == b + 1 && m.stack == [ROOTS, b]
    requires m.store[b] == MapC(false, map[], map[CLASS_NAME := NameVal(name)]) && name != CLASS_NAME
    requires cls in m.names && m.names[cls] == name
    requires m' == m.(store := m.store[..b] + [PropsOf(name, b + 1), MapC(true, map[], map[])],
                            stack := [ROOTS, b, b + 1])
    ensures RunOk(m, [NextContext(cls)], m')
    ensures InContext(m', b, map[])
  {
    assert PopTo(m.stack, b) == Some(m.stack);
    assert map[CLASS_NAME := NameVal(name)][name := Ptr(b + 1)] == map[CLASS_NAME := NameVal(name), name := Ptr(b + 1)];
    var s := Step(m, NextContext(cls)).value;
    assert s.store == m'.store;
    assert s.stack == m'.stack;
    RunOne(m, NextContext(cls), m');
  }

  lemma CloseBody(m: Machine, b: Loc, i: nat, m': Machine)
    requires Shaped(m) && m.cur == Some(Current(b, i)) && m.stack == [ROOTS, b, b + 1]
    requires m' == m.(stack := [ROOTS], cur := None)
    ensures RunOk(m, [ObjEnd(i)], m')
  {
    assert m.stack[..2] == [ROOTS, b] && [ROOTS, b][..1] == [ROOTS];
    assert PopTo(m.stack, b) == PopTo([ROOTS, b], b) == Some([ROOTS, b]);
    RunOne(m, ObjEnd(i), m');
  }
}
