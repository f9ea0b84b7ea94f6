// The unpacker: first all records are turned into containers, then objects are
// built on demand, each entered in the table before its fields are read.

module Unpackers {
  import opened Bits
  import opened Bytes
  import opened VarInt
  import opened Typdex
  import opened DyBufs
  import opened Codec
  import opened Options
  import opened Comparison
  import opened ObjectGraph
  import opened Records
  import opened Machines
  import opened PackRun
  import opened PackMeaning
  import opened Unpacking
  import opened MapCopying

  // Everything but the container at l is as it was.
  ghost predicate Others(s: seq<Cont>, s': seq<Cont>, l: Loc)
  {
    |s'| == |s| && l < |s| && forall k :: 0 <= k < |s| && k != l ==> s'[k] == s[k]
  }

  class Unpacker {
    const dyb: DyBuf
    var store: seq<Cont>
    var stack: seq<Loc>
    var objects: map<nat, ObjEntry>
    var idToClassName: map<nat, text>
    var allocators: set<text>
    var lastObjectNum: Option<nat>
    // The objects built so far, by address, and the next free address.
    var heap: Graph
    var nextAddr: Ref
    // Which original each of them is the copy of.
    ghost var f: map<Ref, Ref>

    ghost function M(cur: Option<Current>): Machine
      reads this
    {
      Machine(store, stack, objects, idToClassName, cur)
    }

    constructor (dyb: DyBuf, allocators: set<text>)
      ensures this.dyb == dyb && this.allocators == allocators
      ensures M(None) == START && lastObjectNum == None && heap == map[] && nextAddr > 0 && f == map[]
    {
      this.dyb := dyb;
      this.allocators := allocators;
      store := [MapC(false, map[], map[])];
      stack := [ROOTS];
      objects := map[];
      idToClassName := map[];
      lastObjectNum := None;
      heap := map[];
      nextAddr := 1;
      f := map[];
    }

    // ----- process

    method PushIntoStack(key: nat, v: Val, ghost cur: Option<Current>)
      requires HasTop(stack, store)
      modifies `store
      ensures M(cur) == PutInt(old(M(cur)), key, v)
      ensures Others(old(store), store, stack[|stack| - 1])
      ensures
        match old(store[stack[|stack| - 1]])
        case MapC(tmp, ints, strs) => store[stack[|stack| - 1]] == MapC(tmp, ints[key := v], strs)
        case ListC(items) => store[stack[|stack| - 1]] == ListC(items + [v])
    {
      var top := stack[|stack| - 1];
      match store[top]
      case MapC(tmp, ints, strs) => store := store[top := MapC(tmp, ints[key := v], strs)];
      case ListC(items) => store := store[top := ListC(items + [v])];
    }

    method PushKeyVal(name: text, v: Val, ghost cur: Option<Current>)
      requires HasTop(stack, store) && store[stack[|stack| - 1]].MapC?
      modifies `store
      ensures M(cur) == PutName(old(M(cur)), name, v)
      ensures
        var l := stack[|stack| - 1];
        Others(old(store), store, l) && store[l] == old(store)[l].(strs := old(store)[l].strs[name := v])
    {
      var top := stack[|stack| - 1];
      var c := store[top];
      store := store[top := MapC(c.tmp, c.ints, c.strs[name := v])];
    }

    method PushNew(c: Cont, ghost cur: Option<Current>)
      modifies `store, `stack
      ensures M(cur) == Pushed(old(M(cur)), c)
      ensures store == old(store) + [c] && stack == old(stack) + [|old(store)|]
    {
      stack := stack + [|store|];
      store := store + [c];
    }

    method PopUntil(l: Loc)
      requires PopTo(stack, l).Some?
      modifies `stack
      ensures Some(stack) == PopTo(old(stack), l) && stack != []
      ensures stack <= old(stack) && stack[|stack| - 1] == l && l !in old(stack)[|stack|..]
    {
      while stack[|stack| - 1] != l
        invariant stack != [] && PopTo(stack, l) == PopTo(old(stack), l)
        invariant stack <= old(stack) && l !in old(stack)[|stack|..]
        decreases |stack|
      {
        stack := stack[..|stack| - 1];
      }
    }

    method ProcessArray(key: nat, size: nat, ghost r: Record, ghost cur: Option<Current>)
      requires r == if size > 0 then ArrayStart(key, size - 1) else ArrayEnd(key)
      requires Step(M(cur), r).Some?
      modifies `store, `stack
      ensures Some(M(cur)) == Step(old(M(cur)), r)
      ensures size == 0 ==> store == old(store) && stack == old(stack)[..|old(stack)| - 1]
      ensures size > 0 ==> |store| == |old(store)| + 1 && stack == old(stack) + [|old(store)|]
      ensures size > 0 ==>
        var l, a := old(stack)[|old(stack)| - 1], |old(store)|;
        store[a] == ListC([]) && Others(old(store), store[..a], l)
        && match old(store)[l]
           case MapC(tmp, ints, strs) => store[l] == MapC(tmp, ints[key := Ptr(a)], strs)
           case ListC(items) => store[l] == ListC(items + [Ptr(a)])
    {
      if size > 0 {
        var l := |store|;
        PushIntoStack(key, Ptr(l), cur);
        PushNew(ListC([]), cur);
      } else {
        stack := stack[..|stack| - 1];
      }
    }

    method ProcessObject(num: nat, cls: nat, cur: Option<Current>, ghost r: Record) returns (cur': Option<Current>)
      requires r == if cur.None? then ObjStart(num, cls) else ObjEnd(num)
      requires Step(M(cur), r).Some?
      modifies `store, `stack, `objects
      ensures Some(M(cur')) == Step(old(M(cur)), r)
      ensures cur.None? ==>
        cls in idToClassName && cur' == Some(Current(|old(store)|, num))
        && store == old(store) + [MapC(false, map[], map[CLASS_NAME := NameVal(idToClassName[cls])])]
        && stack == old(stack) + [|old(store)|] && objects == old(objects)[num := Props(|old(store)|)]
      ensures cur.Some? ==>
        cur' == None && num == cur.value.num && store == old(store) && objects == old(objects)
        && |stack| < |old(stack)| && stack == old(stack)[..|stack|]
        && old(stack)[|stack|] == cur.value.loc && cur.value.loc !in old(stack)[|stack| + 1..]
    {
      if cur.None? {
        var l := |store|;
        PushNew(MapC(false, map[], map[]), cur);
        objects := objects[num := Props(l)];
        cur' := Some(Current(l, num));
        PushKeyVal(CLASS_NAME, NameVal(idToClassName[cls]), cur');
        assert old(store) + [MapC(false, map[], map[CLASS_NAME := NameVal(idToClassName[cls])])] == store;
      } else {
        PopUntil(cur.value.loc);
        stack := stack[..|stack| - 1];
        cur' := None;
      }
    }

    method ProcessContext(cls: nat, cur: Option<Current>)
      requires Step(M(cur), NextContext(cls)).Some?
      modifies `store, `stack
      ensures Some(M(cur)) == Step(old(M(cur)), NextContext(cls))
      ensures cls in idToClassName && cur.Some? && cur.value.loc < |old(store)| < |store|
      ensures |stack| >= 2 && stack[|stack| - 1] == |old(store)| && stack[|stack| - 2] == cur.value.loc
      ensures |stack| <= |old(stack)| + 1 && stack[..|stack| - 1] == old(stack)[..|stack| - 1]
        && cur.value.loc !in old(stack)[|stack| - 1..]
      ensures
        var l, a := cur.value.loc, |old(store)|;
        |store| == a + 1 && store[a] == MapC(true, map[], map[])
        && Others(old(store), store[..a], l) && old(store)[l].MapC?
        && store[l] == old(store)[l].(strs := old(store)[l].strs[idToClassName[cls] := Ptr(a)])
    {
      PopUntil(cur.value.loc);
      var l := |store|;
      PushKeyVal(idToClassName[cls], Ptr(l), cur);
      PushNew(MapC(true, map[], map[]), cur);
    }

    // The payload of the record whose header h has been read, and its effect.
    method ProcessPayload(h: Header, cur: Option<Current>, ghost r: Record, ghost rest: seq<byte>)
      returns (cur': Option<Current>)
      requires r.Legal() && h == r.Head() && Step(M(cur), r).Some?
      requires dyb.Valid() && dyb.Pending() == r.Payload() + rest
      modifies `store, `stack, `objects, `idToClassName, dyb`position
      ensures Some(M(cur')) == Step(old(M(cur)), r)
      ensures dyb.Valid() && dyb.Pending() == rest
    {
      cur' := cur;
      if h.typ == PKR_INTEGER {
        var v := NextSigned(dyb, r.v, rest);
        PushIntoStack(h.index, LongVal(v), cur);
      } else if h.typ == PKR_RAW {
        var data := NextBlock(dyb, r.data, rest);
        PushIntoStack(h.index, DataVal(data), cur);
      } else if h.typ == PKR_OBJECT_REF {
        var num := NextNumber(dyb, r.num, rest);
        PushIntoStack(h.index, NumVal(num), cur);
      } else if h.typ == PKR_ARRAY {
        var size := NextNumber(dyb, if r.ArrayStart? then r.len + 1 else 0, rest);
        ProcessArray(h.index, size, r, cur);
      } else {
        cur' := ProcessStructure(h, cur, r, rest);
      }
    }

    method ProcessStructure(h: Header, cur: Option<Current>, ghost r: Record, ghost rest: seq<byte>)
      returns (cur': Option<Current>)
      requires r.Legal() && h == r.Head() && Step(M(cur), r).Some?
      requires h.typ in {PKR_OBJECT, PKR_CONTEXT, PKR_DB, PKR_FUNCTION}
      requires dyb.Valid() && dyb.Pending() == r.Payload() + rest
      modifies `store, `stack, `objects, `idToClassName, dyb`position
      ensures Some(M(cur')) == Step(old(M(cur)), r)
      ensures dyb.Valid() && dyb.Pending() == rest
    {
      cur' := cur;
      if h.typ == PKR_OBJECT {
        var cls := 0;
        if cur.None? {
          cls := NextNumber(dyb, r.cls, rest);
        } else {
          assert r.Payload() + rest == rest;
        }
        cur' := ProcessObject(h.index, cls, cur, r);
      } else if h.typ == PKR_CONTEXT {
        assert r.Payload() + rest == rest;
        ProcessContext(h.index, cur);
      } else if h.typ == PKR_DB {
        ProcessClassName(cur, r.cls, r.name, rest);
      } else {
        var _ := NextNumber(dyb, r.number, rest);
      }
    }

    method ProcessClassName(ghost cur: Option<Current>, ghost cls: nat, ghost name: text, ghost rest: seq<byte>)
      requires ClassDb(cls, name).Legal() && Step(M(cur), ClassDb(cls, name)).Some?
      requires dyb.Valid() && dyb.Pending() == ClassDb(cls, name).Payload() + rest
      modifies `idToClassName, dyb`position
      ensures Some(M(cur)) == Step(old(M(cur)), ClassDb(cls, name)) && idToClassName == old(idToClassName)[cls := name]
      ensures dyb.Valid() && dyb.Pending() == rest
    {
      Regroup(VarEncode(cls), StringEncode(name), rest);
      var num := NextNumber(dyb, cls, StringEncode(name) + rest);
      var str := NextText(dyb, name, rest);
      idToClassName := idToClassName[num := str];
    }

    // One turn of the loop. The tag of an object's start and end is the same;
    // whether an object is open tells them apart.
    method ProcessRecord(cur: Option<Current>, ghost r: Record, ghost rest: seq<byte>) returns (cur': Option<Current>)
      requires r.Legal() && Step(M(cur), r).Some?
      requires dyb.Valid() && dyb.Pending() == r.Encode() + rest
      modifies `store, `stack, `objects, `idToClassName, dyb`position
      ensures Some(M(cur')) == Step(old(M(cur)), r)
      ensures dyb.Valid() && dyb.Pending() == rest
    {
      Regroup(HeaderEncode(r.Head()), r.Payload(), rest);
      HeaderRoundTrip(r.Head(), r.Payload() + rest);
      var h := NextTypdex(dyb);
      cur' := ProcessPayload(h, cur, r, rest);
    }

    // On the bytes of an accepted run of records, process goes through exactly
    // that run.
    method Process(ghost rs: seq<Record>, ghost end: Machine)
      requires M(None) == START && RunOk(START, rs, end) && end.cur.None? && AllLegal(rs)
      requires dyb.Valid() && dyb.Pending() == EncodeAll(rs)
      modifies `store, `stack, `objects, `idToClassName, dyb`position
      ensures M(None) == end && dyb.Valid() && dyb.Pending() == []
    {
      var cur: Option<Current> := None;
      ghost var left := rs;
      while dyb.Remainder() > 0
        invariant AllLegal(left) && RunOk(M(cur), left, end)
        invariant dyb.Valid() && dyb.Pending() == EncodeAll(left)
        decreases |left|
      {
        cur := ProcessRecord(cur, left[0], EncodeAll(left[1..]));
        left := left[1..];
      }
      RecordsAreNotEmpty(left);
    }

    // ----- Building objects

    ghost function T(): State
      reads this
    {
      State(store, objects, heap)
    }

    // Fresh addresses, and all classes registered.
    ghost predicate Prepared(s: Source)
      reads this
    {
      nextAddr > 0 && (forall a :: a in heap ==> a < nextAddr)
      && forall r :: r in s.ids ==> r in s.g && NodeName(s.g[r]) in allocators
    }

    ghost predicate Ready(s: Source, busy: set<Ref>)
      reads this
    {
      Inv(T(), s, f, busy) && lastObjectNum == None && Prepared(s)
    }

    function Lookup(key: nat): Option<Val>
      requires HasTop(stack, store)
      reads this
    {
      match store[stack[|stack| - 1]]
      case MapC(_, ints, _) => if key in ints then Some(ints[key]) else None
      case ListC(items) => if key < |items| then Some(items[key]) else None
    }

    // All the objects not being filled are left as they are, and so are the
    // stack and the records' containers; the table changes from properties to
    // objects only.
    twostate predicate Unpacked(s: Source, busy: set<Ref>)
      reads this
    {
      Ready(s, busy) && stack == old(stack) && Kept(busy, old(f), old(heap), f, heap)
        && Unmade(objects) <= old(Unmade(objects))
    }

    // Object i, at address a, is being filled from its containers at place l.
    ghost predicate Filling(s: Source, busy: set<Ref>, i: nat, a: Ref, l: Loc)
      reads this
    {
      i < |s.ids| && s.ids[i] !in busy && Ready(s, busy + {s.ids[i]}) && AreContainers(s, busy)
      && s.ids[i] in f && f[s.ids[i]] == a && a in heap
      && BodyHeld(store, Props(l), s.g[s.ids[i]], KidNums(s, i))
      && stack != [] && stack[|stack| - 1] == l + 1
    }

    method PopContextInStack()
      requires |stack| >= 2 && HasTop(stack, store) && HasTop(stack[..|stack| - 1], store)
      requires store[stack[|stack| - 1]].MapC? && store[stack[|stack| - 1]].tmp
      requires store[stack[|stack| - 2]].MapC? && !store[stack[|stack| - 2]].tmp
      modifies `stack
      ensures stack == old(stack)[..|old(stack)| - 1]
    {
      var c := store[stack[|stack| - 1]];
      while c.MapC? && c.tmp
        invariant HasTop(stack, store) && c.MapC? && c == store[stack[|stack| - 1]]
        invariant if c.tmp then stack == old(stack) else stack == old(stack)[..|old(stack)| - 1]
        decreases |stack|
      {
        stack := stack[..|stack| - 1];
        c := store[stack[|stack| - 1]];
      }
    }

    method UnpackVarInt(key: nat) returns (v: int64)
      requires HasTop(stack, store) && Lookup(key).Some? && Lookup(key).value.LongVal?
      ensures Lookup(key) == Some(LongVal(v))
    {
      v := Lookup(key).value.v;
    }

    method UnpackData(key: nat) returns (d: block)
      requires HasTop(stack, store) && Lookup(key).Some? && Lookup(key).value.DataVal?
      ensures Lookup(key) == Some(DataVal(d))
    {
      d := Lookup(key).value.d;
    }

    method UnpackArray(key: nat) returns (len: nat)
      requires HasTop(stack, store) && Lookup(key).Some? && Lookup(key).value.Ptr?
      requires Lookup(key).value.loc < |store| && store[Lookup(key).value.loc].ListC?
      modifies `stack
      ensures stack == old(stack) + [old(Lookup(key)).value.loc] && len == |store[stack[|stack| - 1]].items|
    {
      var l := Lookup(key).value.loc;
      stack := stack + [l];
      len := |store[l].items|;
    }

    method UnpackArrayEnd()
      requires stack != []
      modifies `stack
      ensures stack == old(stack)[..|old(stack)| - 1]
    {
      stack := stack[..|stack| - 1];
    }

    // unpackObject_impl: the object that number stands for, built if need be.
    method UnpackObject(key: nat, ghost s: Source, ghost busy: set<Ref>) returns (r: Ref)
      requires Ready(s, busy) && AreContainers(s, busy) && HasTop(stack, store)
      requires Lookup(key).Some? ==> Lookup(key).value.NumVal? && Lookup(key).value.n < |s.ids|
      modifies `stack, `objects, `heap, `lastObjectNum, `nextAddr, `f
      ensures Unpacked(s, busy)
      ensures match old(Lookup(key))
              case None => r == NULL && f == old(f) && heap == old(heap)
              case Some(v) => s.ids[v.n] in f && r == f[s.ids[v.n]]
      decreases Unmade(objects), 3, 0
    {
      NothingHappened(T(), s, f, busy);
      var v := Lookup(key);
      if v.None? { return NULL; }
      var num := v.value.n;
      assert EntryOk(T(), s, f, num);
      match objects[num]
      case Object(addr) => r := addr;
      case Props(_) => r := UnpackNew(num, s, busy);
    }

    method UnpackNew(i: nat, ghost s: Source, ghost busy: set<Ref>) returns (r: Ref)
      requires Ready(s, busy) && AreContainers(s, busy) && i < |s.ids| && i in objects && objects[i].Props?
      modifies `stack, `objects, `heap, `lastObjectNum, `nextAddr, `f
      ensures Unpacked(s, busy)
      ensures s.ids[i] in f && r == f[s.ids[i]]
      decreases Unmade(objects), 2
    {
      var l := objects[i].loc;
      Located(T(), s, f, busy, i);
      var name := store[l].strs[CLASS_NAME].s;
      stack := stack + [l];
      if name !in allocators { return NULL; }
      lastObjectNum := Some(i);
      r := Construct(name, i, l, s, busy);
      PopContextInStack();
      stack := stack[..|stack| - 1];
      assert stack == old(stack);
    }

    // unpack##stru_name and init_##stru_name.
    method Construct(name: text, ghost i: nat, ghost l: Loc, ghost s: Source, ghost busy: set<Ref>) returns (a: Ref)
      requires Inv(T(), s, f, busy) && Prepared(s) && lastObjectNum == Some(i) && AreContainers(s, busy)
      requires i < |s.ids| && i in objects && objects[i] == Props(l) && name == NodeName(s.g[s.ids[i]])
      requires stack != [] && stack[|stack| - 1] == l
      modifies `stack, `objects, `heap, `lastObjectNum, `nextAddr, `f
      ensures Ready(s, busy) && Kept(busy, old(f), old(heap), f, heap) && Unmade(objects) <= old(Unmade(objects))
      ensures stack == old(stack) + [l + 1]
      ensures s.ids[i] in f && a == f[s.ids[i]]
      decreases Unmade(objects), 1
    {
      a := nextAddr;
      nextAddr := nextAddr + 1;
      UnpackNextContext(a, name, i, l, s, busy);
      InitObject(a, name, i, l, s, busy);
      Leave(T(), s, f, busy, s.ids[i]);
    }

    // The object is entered in the table before any of its fields is read.
    method UnpackNextContext(a: Ref, name: text, ghost i: nat, ghost l: Loc, ghost s: Source, ghost busy: set<Ref>)
      requires Inv(T(), s, f, busy) && Prepared(s) && lastObjectNum == Some(i) && AreContainers(s, busy)
      requires i < |s.ids| && i in objects && objects[i] == Props(l) && name == NodeName(s.g[s.ids[i]])
      requires stack != [] && stack[|stack| - 1] == l && a != NULL && a !in heap && a < nextAddr
      modifies `stack, `objects, `heap, `lastObjectNum, `f
      ensures Filling(s, busy, i, a, l) && heap[a] == Blank(name)
      ensures stack == old(stack) + [l + 1] && Kept(busy, old(f), old(heap), f, heap)
        && Unmade(objects) < old(Unmade(objects))
    {
      hide Inv, Kept, BodyHeld, GoodSource, AreContainers, KidNums;
      Located(T(), s, f, busy, i);
      Enter(T(), s, f, busy, i, a, Blank(name));
      MadeOne(objects, i, a);
      heap := heap[a := Blank(name)];
      objects := objects[lastObjectNum.value := Object(a)];
      lastObjectNum := None;
      stack := stack + [store[stack[|stack| - 1]].strs[name].loc];
      f := f[s.ids[i] := a];
    }

    // The array of object i is open on the stack.
    ghost predicate InArray(s: Source, busy: set<Ref>, i: nat, a: Ref, l: Loc)
      reads this
    {
      i < |s.ids| && s.ids[i] !in busy && Ready(s, busy + {s.ids[i]}) && AreContainers(s, busy + {s.ids[i]})
      && s.ids[i] in f && f[s.ids[i]] == a && a in heap
      && stack != [] && stack[|stack| - 1] == l + 2 && l + 2 < |store| && store[l + 2] == ListC(NumVals(KidNums(s, i)))
    }

    // Its fields have been filled.
    twostate predicate Filled(s: Source, busy: set<Ref>, i: nat, a: Ref)
      reads this
      requires i < |s.ids|
    {
      Ready(s, busy + {s.ids[i]}) && Built(heap, s, f, s.ids[i]) && f[s.ids[i]] == a
      && stack == old(stack) && Kept(busy, old(f), old(heap), f, heap) && Unmade(objects) <= old(Unmade(objects))
    }

    // init_##stru_name of the class by that name.
    method InitObject(a: Ref, name: text, ghost i: nat, ghost l: Loc, ghost s: Source, ghost busy: set<Ref>)
      requires Filling(s, busy, i, a, l) && name == NodeName(s.g[s.ids[i]]) && heap[a] == Blank(name)
      modifies `stack, `objects, `heap, `lastObjectNum, `nextAddr, `f
      ensures Filled(s, busy, i, a)
      decreases Unmade(objects), 6
    {
      hide Inv, BodyHeld, Built, Kept, AreContainers;
      BlankOfName(s.g[s.ids[i]]);
      match heap[a]
      case ListN(_) => InitMMList(a, i, l, s, busy);
      case MapN(_, _) => InitMMMap(a, i, l, s, busy);
      case _ => InitLeaf(a, i, l, s, busy);
    }

    // initMMInt, initMMLong, initMMString, initMMData.
    method InitLeaf(a: Ref, ghost i: nat, ghost l: Loc, ghost s: Source, ghost busy: set<Ref>)
      requires Filling(s, busy, i, a, l) && NodeClass(heap[a]) == NodeClass(s.g[s.ids[i]])
      requires !heap[a].ListN? && !heap[a].MapN?
      modifies `heap
      ensures Filled(s, busy, i, a)
    {
      ghost var n := s.g[s.ids[i]];
      LeafContext(s, busy, i, a, l);
      hide Filling, Filled, Ready, Inv, NodeClass;
      var copy := LeafFields(heap[a], l, n);
      FillLeaf(a, copy, i, l, s, busy);
    }

    lemma LeafContext(s: Source, busy: set<Ref>, i: nat, a: Ref, l: Loc)
      requires Filling(s, busy, i, a, l) && NodeClass(heap[a]) == NodeClass(s.g[s.ids[i]])
      requires !heap[a].ListN? && !heap[a].MapN?
      ensures !s.g[s.ids[i]].ListN? && !s.g[s.ids[i]].MapN?
      ensures HasTop(stack, store) && store[stack[|stack| - 1]] == MapC(true, FieldInts(s.g[s.ids[i]], l + 2), map[])
    {
      hide EntryOk, Built, BodyHeld, FieldInts, KidNums, AreContainers, GoodSource, PropsOf;
      BodyParts(store, Props(l), s.g[s.ids[i]], KidNums(s, i));
    }

    method LeafFields(blank: Node, ghost l: Loc, ghost n: Node) returns (copy: Node)
      requires NodeClass(blank) == NodeClass(n) && !n.ListN? && !n.MapN?
      requires HasTop(stack, store) && store[stack[|stack| - 1]] == MapC(true, FieldInts(n, l + 2), map[])
      ensures copy == n
    {
      match blank
      case IntN(_) =>
        var v := UnpackVarInt(0);
        copy := IntN(Int32(v));
      case LongN(_) =>
        var v := UnpackVarInt(0);
        copy := LongN(v);
      case StringN(_) =>
        var d := UnpackData(0);
        var str := CString(d, n.s);
        copy := StringN(str);
      case DataN(_) =>
        var d := UnpackData(0);
        copy := DataN(d);
    }

    // A new value at the address of an object whose copy is being filled in.
    method SetNode(a: Ref, n: Node, ghost s: Source, ghost busy: set<Ref>, ghost r: Ref)
      requires Ready(s, busy + {r}) && r !in busy && r in f && f[r] == a
      modifies `heap
      ensures Ready(s, busy + {r}) && heap == old(heap)[a := n] && Kept(busy, f, old(heap), f, heap)
    {
      hide Kept;
      FilledKept(T(), s, busy, r, f, n);
      Fill(T(), s, f, busy + {r}, r, n);
      heap := heap[a := n];
    }

    method FillLeaf(a: Ref, n: Node, ghost i: nat, ghost l: Loc, ghost s: Source, ghost busy: set<Ref>)
      requires Filling(s, busy, i, a, l) && n == s.g[s.ids[i]] && !n.ListN? && !n.MapN?
      modifies `heap
      ensures Filled(s, busy, i, a)
    {
      SetNode(a, n, s, busy, s.ids[i]);
    }

    // What unpack_mmobj(j) finds in the open array.
    lemma ItemAt(s: Source, busy: set<Ref>, i: nat, a: Ref, l: Loc, j: nat)
      requires InArray(s, busy, i, a, l) && j < |KidNums(s, i)|
      ensures HasTop(stack, store) && Lookup(j) == Some(NumVal(KidNums(s, i)[j]))
      ensures KidNums(s, i)[j] < |s.ids| && j < |Children(s.g[s.ids[i]])|
      ensures s.ids[KidNums(s, i)[j]] == Children(s.g[s.ids[i]])[j]
    {}

    method InitMMList(a: Ref, ghost i: nat, ghost l: Loc, ghost s: Source, ghost busy: set<Ref>)
      requires Filling(s, busy, i, a, l) && s.g[s.ids[i]].ListN? && heap[a] == ListN([])
      modifies `stack, `objects, `heap, `lastObjectNum, `nextAddr, `f
      ensures Filled(s, busy, i, a)
      decreases Unmade(objects), 5
    {
      hide Inv, Built, Kept, BodyHeld, GoodSource;
      ListFields(s, busy, i, a, l);
      var len := UnpackArray(0);
      InitItems(a, len, i, l, s, busy);
      UnpackArrayEnd();
    }

    // What the context of a list holds.
    lemma ListFields(s: Source, busy: set<Ref>, i: nat, a: Ref, l: Loc)
      requires Filling(s, busy, i, a, l) && s.g[s.ids[i]].ListN?
      ensures HasTop(stack, store) && AreContainers(s, busy + {s.ids[i]}) && Lookup(0) == Some(Ptr(l + 2))
      ensures l + 2 < |store| && store[l + 2] == ListC(NumVals(KidNums(s, i)))
    {
      BodyParts(store, Props(l), s.g[s.ids[i]], KidNums(s, i));
    }

    // The first k items have been filled in; st, f0 and h0 are those before.
    ghost predicate ItemsDone(s: Source, busy: set<Ref>, i: nat, a: Ref, l: Loc,
                              st: seq<Loc>, f0: map<Ref, Ref>, h0: Graph, k: nat)
      reads this
    {
      InArray(s, busy, i, a, l) && s.g[s.ids[i]].ListN? && stack == st
      && Kept(busy, f0, h0, f, heap) && ListPart(heap, f, a, Children(s.g[s.ids[i]]), k)
    }

    method InitItems(a: Ref, len: nat, ghost i: nat, ghost l: Loc, ghost s: Source, ghost busy: set<Ref>)
      requires InArray(s, busy, i, a, l) && s.g[s.ids[i]].ListN? && heap[a] == ListN([]) && len == |KidNums(s, i)|
      modifies `stack, `objects, `heap, `lastObjectNum, `nextAddr, `f
      ensures Filled(s, busy, i, a)
      decreases Unmade(objects), 4, 1
    {
      hide ItemsDone, Ready, Inv, GoodSource, Built, Kept, Unmade, Children, KidNums, AreContainers, HasTop;
      ghost var st, f0, h0 := stack, f, heap;
      BeforeItems(s, busy, i, a, l);
      hide InArray;
      for j := 0 to len
        invariant ItemsDone(s, busy, i, a, l, st, f0, h0, j) && Unmade(objects) <= old(Unmade(objects))
      {
        UnpackItem(a, j, i, l, s, busy, st, f0, h0);
      }
      AfterItems(s, busy, i, a, l, st, f0, h0, len);
    }

    lemma BeforeItems(s: Source, busy: set<Ref>, i: nat, a: Ref, l: Loc)
      requires InArray(s, busy, i, a, l) && s.g[s.ids[i]].ListN? && heap[a] == ListN([])
      ensures s.ids[i] in s.g && |KidNums(s, i)| == |Children(s.g[s.ids[i]])|
      ensures ItemsDone(s, busy, i, a, l, stack, f, heap, 0)
    {
      NothingHappened(T(), s, f, busy + {s.ids[i]});
    }

    lemma AfterItems(s: Source, busy: set<Ref>, i: nat, a: Ref, l: Loc, st: seq<Loc>, f0: map<Ref, Ref>, h0: Graph,
                     k: nat)
      requires i < |s.ids| && s.ids[i] in s.g && s.g[s.ids[i]].ListN? && k == |Children(s.g[s.ids[i]])|
      requires ItemsDone(s, busy, i, a, l, st, f0, h0, k)
      ensures Ready(s, busy + {s.ids[i]}) && Built(heap, s, f, s.ids[i]) && f[s.ids[i]] == a
      ensures stack == st && Kept(busy, f0, h0, f, heap)
    {
      hide Inv, GoodSource, Kept, ListPart;
      ListDone(heap, s, f, s.ids[i]);
    }

    method UnpackItem(a: Ref, k: nat, ghost i: nat, ghost l: Loc, ghost s: Source, ghost busy: set<Ref>,
                      ghost st: seq<Loc>, ghost f0: map<Ref, Ref>, ghost h0: Graph)
      requires ItemsDone(s, busy, i, a, l, st, f0, h0, k) && k < |KidNums(s, i)|
      modifies `stack, `objects, `heap, `lastObjectNum, `nextAddr, `f
      ensures ItemsDone(s, busy, i, a, l, st, f0, h0, k + 1) && Unmade(objects) <= old(Unmade(objects))
      decreases Unmade(objects), 3, 1
    {
      hide Inv, Built, Kept, ListPart, GoodSource, AreContainers, Injective, KidNums, Unmade;
      ItemAt(s, busy, i, a, l, k);
      ghost var r, kids := s.ids[i], Children(s.g[s.ids[i]]);
      var x := UnpackObject(k, s, busy + {r});
      ItemFilled(T(), s, busy, r, f0, h0, old(f), old(heap), f, a, kids, k);
      PushMMListItem(a, x, s, busy, r);
    }

    method PushMMListItem(a: Ref, x: Ref, ghost s: Source, ghost busy: set<Ref>, ghost r: Ref)
      requires Ready(s, busy + {r}) && r in f && f[r] == a && a in heap && heap[a].ListN?
      modifies `heap
      ensures Ready(s, busy + {r}) && heap == old(heap)[a := ListN(old(heap)[a].items + [x])]
    {
      Fill(T(), s, f, busy + {r}, r, ListN(heap[a].items + [x]));
      heap := heap[a := ListN(heap[a].items + [x])];
    }

    method InitMMMap(a: Ref, ghost i: nat, ghost l: Loc, ghost s: Source, ghost busy: set<Ref>)
      requires Filling(s, busy, i, a, l) && s.g[s.ids[i]].MapN? && heap[a] == MapN(false, [])
      modifies `stack, `objects, `heap, `lastObjectNum, `nextAddr, `f
      ensures Filled(s, busy, i, a)
      decreases Unmade(objects), 5
    {
      hide Inv, Built, Kept, BodyHeld, GoodSource;
      MapFields(s, busy, i, a, l);
      ghost var f0, h0 := f, heap;
      var v := UnpackVarInt(0);
      SetSorted(a, v != 0, s, busy, s.ids[i]);
      ghost var f1, h1 := f, heap;
      var len := UnpackArray(1);
      InitEntries(a, len, i, l, s, busy);
      KeptTwice(busy, f0, h0, f1, h1, f, heap);
      UnpackArrayEnd();
    }

    // What the context of a map holds.
    lemma MapFields(s: Source, busy: set<Ref>, i: nat, a: Ref, l: Loc)
      requires Filling(s, busy, i, a, l) && s.g[s.ids[i]].MapN?
      ensures HasTop(stack, store) && AreContainers(s, busy + {s.ids[i]})
      ensures Lookup(0) == Some(LongVal(if s.g[s.ids[i]].sorted then 1 else 0)) && Lookup(1) == Some(Ptr(l + 2))
      ensures l + 2 < |store| && store[l + 2] == ListC(NumVals(KidNums(s, i)))
    {
      BodyParts(store, Props(l), s.g[s.ids[i]], KidNums(s, i));
    }

    method SetSorted(a: Ref, sorted: bool, ghost s: Source, ghost busy: set<Ref>, ghost r: Ref)
      requires Ready(s, busy + {r}) && r in f && r !in busy && f[r] == a && a in heap && heap[a].MapN?
      modifies `heap
      ensures Ready(s, busy + {r}) && heap == old(heap)[a := MapN(sorted, old(heap)[a].entries)]
      ensures Kept(busy, f, old(heap), f, heap)
    {
      SetNode(a, MapN(sorted, heap[a].entries), s, busy, r);
    }

    // The first m entries have been filled in; st, f0 and h0 are those before.
    ghost predicate EntriesDone(s: Source, busy: set<Ref>, i: nat, a: Ref, l: Loc,
                                st: seq<Loc>, f0: map<Ref, Ref>, h0: Graph, m: nat)
      reads this
    {
      InArray(s, busy, i, a, l) && s.g[s.ids[i]].MapN? && stack == st
      && Kept(busy, f0, h0, f, heap) && MapPart(heap, s.g, f, a, s.g[s.ids[i]], m)
    }

    method InitEntries(a: Ref, len: nat, ghost i: nat, ghost l: Loc, ghost s: Source, ghost busy: set<Ref>)
      requires InArray(s, busy, i, a, l) && s.g[s.ids[i]].MapN? && heap[a] == MapN(s.g[s.ids[i]].sorted, [])
      requires len == |KidNums(s, i)|
      modifies `stack, `objects, `heap, `lastObjectNum, `nextAddr, `f
      ensures Filled(s, busy, i, a)
      decreases Unmade(objects), 4, 1
    {
      hide EntriesDone, Ready, Inv, GoodSource, Built, Kept, Unmade, Children, KidNums, AreContainers, HasTop;
      ghost var st, f0, h0 := stack, f, heap;
      BeforeEntries(s, busy, i, a, l);
      ghost var n := s.g[s.ids[i]];
      hide InArray;
      var j := 0;
      ghost var m := 0;
      while j < len
        invariant j == 2 * m <= len && Unmade(objects) <= old(Unmade(objects))
        invariant EntriesDone(s, busy, i, a, l, st, f0, h0, m)
      {
        UnpackEntry(a, j, m, i, l, s, busy, st, f0, h0);
        j, m := j + 2, m + 1;
      }
      assert m == |n.entries|;
      AfterEntries(s, busy, i, a, l, st, f0, h0);
    }

    lemma BeforeEntries(s: Source, busy: set<Ref>, i: nat, a: Ref, l: Loc)
      requires InArray(s, busy, i, a, l) && s.g[s.ids[i]].MapN? && heap[a] == MapN(s.g[s.ids[i]].sorted, [])
      ensures s.ids[i] in s.g && |KidNums(s, i)| == 2 * |s.g[s.ids[i]].entries|
      ensures EntriesDone(s, busy, i, a, l, stack, f, heap, 0)
    {
      NothingHappened(T(), s, f, busy + {s.ids[i]});
      FlatLength(s.g[s.ids[i]].entries);
    }

    lemma AfterEntries(s: Source, busy: set<Ref>, i: nat, a: Ref, l: Loc, st: seq<Loc>, f0: map<Ref, Ref>, h0: Graph)
      requires i < |s.ids| && s.ids[i] in s.g && s.g[s.ids[i]].MapN?
      requires EntriesDone(s, busy, i, a, l, st, f0, h0, |s.g[s.ids[i]].entries|)
      ensures Ready(s, busy + {s.ids[i]}) && Built(heap, s, f, s.ids[i]) && f[s.ids[i]] == a
      ensures stack == st && Kept(busy, f0, h0, f, heap)
    {
      hide Inv, GoodSource, Kept, MapPart;
      MapDone(heap, s, f, s.ids[i]);
    }

    method UnpackEntry(a: Ref, j: nat, ghost m: nat, ghost i: nat, ghost l: Loc, ghost s: Source, ghost busy: set<Ref>,
                       ghost st: seq<Loc>, ghost f0: map<Ref, Ref>, ghost h0: Graph)
      requires EntriesDone(s, busy, i, a, l, st, f0, h0, m) && j == 2 * m && m < |s.g[s.ids[i]].entries|
      modifies `stack, `objects, `heap, `lastObjectNum, `nextAddr, `f
      ensures EntriesDone(s, busy, i, a, l, st, f0, h0, m + 1) && Unmade(objects) <= old(Unmade(objects))
      decreases Unmade(objects), 3, 1
    {
      hide Inv, Built, Kept, MapPart, GoodSource, AreContainers;
      ghost var r, n := s.ids[i], s.g[s.ids[i]];
      EntryAt(s, busy, i, a, l, m);
      var k := UnpackObject(j, s, busy + {r});
      ghost var f1, h1 := f, heap;
      var v := UnpackObject(j + 1, s, busy + {r});
      EntryUnpacked(T(), s, busy, r, old(f), old(heap), f1, h1, f, a, n, m);
      ghost var f2, h2 := f, heap;
      AddMMMapItem(a, k, v, m, s, busy, r);
      KeptTwice(busy, f0, h0, old(f), old(heap), f2, h2);
      KeptTwice(busy, f0, h0, f2, h2, f, heap);
    }

    // What the two unpack_mmobj find for entry m.
    lemma EntryAt(s: Source, busy: set<Ref>, i: nat, a: Ref, l: Loc, m: nat)
      requires InArray(s, busy, i, a, l) && s.g[s.ids[i]].MapN? && m < |s.g[s.ids[i]].entries|
      ensures HasTop(stack, store) && 2 * m + 1 < |KidNums(s, i)|
      ensures var e, nums := s.g[s.ids[i]].entries[m], KidNums(s, i);
        Lookup(2 * m) == Some(NumVal(nums[2 * m])) && Lookup(2 * m + 1) == Some(NumVal(nums[2 * m + 1]))
        && nums[2 * m] < |s.ids| && s.ids[nums[2 * m]] == e.0 && nums[2 * m + 1] < |s.ids|
        && s.ids[nums[2 * m + 1]] == e.1
    {
      FlatAt(s.g[s.ids[i]].entries, m);
      ItemAt(s, busy, i, a, l, 2 * m);
      ItemAt(s, busy, i, a, l, 2 * m + 1);
    }

    method AddMMMapItem(a: Ref, k: Ref, v: Ref, ghost m: nat, ghost s: Source, ghost busy: set<Ref>, ghost r: Ref)
      requires Ready(s, busy + {r}) && AreContainers(s, busy + {r}) && r !in busy && r in f && f[r] == a && r in s.g
      requires s.g[r].MapN? && MapPart(heap, s.g, f, a, s.g[r], m) && m < |s.g[r].entries|
      requires var e := s.g[r].entries[m]; e.0 in f && e.1 in f && k == f[e.0] && v == f[e.1]
      modifies `heap
      ensures Ready(s, busy + {r}) && a in heap && MapPart(heap, s.g, f, a, s.g[r], m + 1)
      ensures Kept(busy, f, old(heap), f, heap)
    {
      hide Inv, Kept, AreContainers, GoodSource, Arranged, EntryImages, KeysPrimary, AddedEntries;
      AddedAsBefore(T(), s, f, busy + {r}, r, a, m);
      SetNode(a, MapN(heap[a].sorted, AddedEntries(heap, heap[a].sorted, heap[a].entries, k, v)), s, busy, r);
    }
  }

  // The characters before the terminator.
  method CString(d: seq<byte>, ghost s: text) returns (r: text)
    requires d == s + [0]
    ensures r == s
  {
    var k := 0;
    while d[k] != 0
      invariant k <= |s|
      decreases |s| - k
    {
      assert d[k] in s + [0];
      k := k + 1;
    }
    r := d[..k];
  }

  lemma RecordsAreNotEmpty(rs: seq<Record>)
    requires AllLegal(rs)
    ensures EncodeAll(rs) == [] ==> rs == []
  {
    hide HeaderEncode, Record.Payload;
    if rs != [] {
      assert rs[0].Legal() && rs[0].Head().typ <= 0xFF;
      EncodableHeaders(rs[0].Head());
      assert rs[0].Encode() != [];
    }
  }
}
