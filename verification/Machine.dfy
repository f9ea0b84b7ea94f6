// The first phase of unpacking, record by record: a stack of containers that
// are filled through the stack while their owners already point at them.

module Machines {
  import opened Bits
  import opened Bytes
  import opened Options
  import opened ObjectGraph
  import opened Records

  // A container's place in the store.
  type Loc = nat

  datatype Val = LongVal(v: int64) | DataVal(d: block) | NumVal(n: nat) | NameVal(s: text) | Ptr(loc: Loc)

  // A map with integer keys (roots, contexts) or name keys (properties), or a
  // list; tmp marks the class TmpContext.
  datatype Cont = MapC(tmp: bool, ints: map<nat, Val>, strs: map<text, Val>) | ListC(items: seq<Val>)

  // What an object number stands for: its property map, or later the object.
  datatype ObjEntry = Props(loc: Loc) | Object(addr: Ref)

  datatype Current = Current(loc: Loc, num: nat)

  datatype Machine = Machine(
    store: seq<Cont>,
    stack: seq<Loc>,
    objects: map<nat, ObjEntry>,
    names: map<nat, text>,
    cur: Option<Current>)

  const ROOTS: Loc := 0

  // "__cls.name__"
  const CLASS_NAME: text := [95, 95, 99, 108, 115, 46, 110, 97, 109, 101, 95, 95]

  const START: Machine := Machine([MapC(false, map[], map[])], [ROOTS], map[], map[], None)

  predicate HasTop(stack: seq<Loc>, store: seq<Cont>)
  {
    stack != [] && stack[|stack| - 1] < |store|
  }

  function Top(m: Machine): (l: Loc)
    requires HasTop(m.stack, m.store)
    ensures l < |m.store|
  {
    m.stack[|m.stack| - 1]
  }

  // pushIntoStack: under an integer key of the top map, or behind the top list.
  function PutInt(m: Machine, key: nat, v: Val): Machine
    requires HasTop(m.stack, m.store)
  {
    var c := match m.store[Top(m)]
      case MapC(tmp, ints, strs) => MapC(tmp, ints[key := v], strs)
      case ListC(items) => ListC(items + [v]);
    m.(store := m.store[Top(m) := c])
  }

  // pushKeyVal: under a name of the top map.
  function PutName(m: Machine, name: text, v: Val): Machine
    requires HasTop(m.stack, m.store) && m.store[Top(m)].MapC?
  {
    var c := m.store[Top(m)];
    m.(store := m.store[Top(m) := MapC(c.tmp, c.ints, c.strs[name := v])])
  }

  // A new container on top of the stack.
  function Pushed(m: Machine, c: Cont): Machine
  {
    m.(store := m.store + [c], stack := m.stack + [|m.store|])
  }

  // The loops that pop until an object's properties are on top.
  function PopTo(stack: seq<Loc>, l: Loc): Option<seq<Loc>>
  {
    if stack == [] then None
    else if stack[|stack| - 1] == l then Some(stack)
    else PopTo(stack[..|stack| - 1], l)
  }

  // One record. None stands for every way in which the source complains or
  // would read outside its stack.
  function Step(m: Machine, r: Record): Option<Machine>
  {
    if !HasTop(m.stack, m.store) then None
    else
      match r
      case Version(_) => Some(m)
      case VarInt(key, v) => Some(PutInt(m, key, LongVal(v)))
      case Raw(key, data) => Some(PutInt(m, key, DataVal(data)))
      case ObjRef(key, num) => Some(PutInt(m, key, NumVal(num)))
      case ArrayStart(key, _) => Some(Pushed(PutInt(m, key, Ptr(|m.store|)), ListC([])))
      case ArrayEnd(_) => Some(m.(stack := m.stack[..|m.stack| - 1]))
      case ObjStart(num, cls) => if m.cur.None? && cls in m.names then Some(Opened(m, num, m.names[cls])) else None
      case ObjEnd(num) => Close(m, num)
      case NextContext(cls) => if cls in m.names then SwitchContext(m, m.names[cls]) else None
      case ClassDb(cls, name) => if cls in m.names then None else Some(m.(names := m.names[cls := name]))
  }

  function Opened(m: Machine, num: nat, name: text): Machine
  {
    var l := |m.store|;
    var props := MapC(false, map[], map[CLASS_NAME := NameVal(name)]);
    Pushed(m, props).(objects := m.objects[num := Props(l)], cur := Some(Current(l, num)))
  }

  function Close(m: Machine, num: nat): Option<Machine>
  {
    if m.cur.None? || m.cur.value.num != num then None
    else
      match PopTo(m.stack, m.cur.value.loc)
      case None => None
      case Some(stack) => Some(m.(stack := DropLast(stack), cur := None))
  }

  function DropLast(stack: seq<Loc>): seq<Loc> { if stack == [] then [] else stack[..|stack| - 1] }

  function SwitchContext(m: Machine, name: text): Option<Machine>
  {
    if m.cur.None? then None
    else
      match PopTo(m.stack, m.cur.value.loc)
      case None => None
      case Some(stack) =>
        var m' := m.(stack := stack);
        if HasTop(stack, m.store) && m.store[Top(m')].MapC?
        then Some(Pushed(PutName(m', name, Ptr(|m.store|)), MapC(true, map[], map[])))
        else None
  }

  // The stack is [roots] outside objects, and [roots, properties, optional
  // context, open arrays...] inside one.
  predicate Shaped(m: Machine)
  {
    |m.stack| > 0 && m.stack[0] == ROOTS
    && (forall i :: 0 <= i < |m.stack| ==> m.stack[i] < |m.store|)
    && (m.cur.None? ==> |m.stack| == 1)
    && (m.cur.Some? ==>
        |m.stack| > 1 && m.stack[1] == m.cur.value.loc
        && m.store[m.stack[1]].MapC? && !m.store[m.stack[1]].tmp
        && (|m.stack| > 2 ==> m.store[m.stack[2]].MapC? && m.store[m.stack[2]].tmp)
        && forall i | 3 <= i < |m.stack| :: m.store[m.stack[i]].ListC?)
  }

  // Running rs from m never fails, keeps the shape at every record, and ends
  // in m'.
  predicate RunOk(m: Machine, rs: seq<Record>, m': Machine)
    decreases |rs|
  {
    Shaped(m)
    && if rs == [] then m' == m else Step(m, rs[0]).Some? && RunOk(Step(m, rs[0]).value, rs[1..], m')
  }

  lemma {:induction false} RunConcat(m: Machine, a: seq<Record>, m': Machine, b: seq<Record>, m'': Machine)
    requires RunOk(m, a, m') && RunOk(m', b, m'')
    ensures RunOk(m, a + b, m'')
    decreases |a|
  {
    if a == [] {
      assert a + b == b;
    } else {
      assert (a + b)[0] == a[0] && (a + b)[1..] == a[1..] + b;
      RunConcat(Step(m, a[0]).value, a[1..], m', b, m'');
    }
  }

  lemma RunOne(m: Machine, r: Record, m': Machine)
    requires Shaped(m) && Shaped(m') && Step(m, r) == Some(m')
    ensures RunOk(m, [r], m')
  {
    assert [r][1..] == [];
    assert RunOk(m', [], m');
  }

  lemma {:induction false} EndIsShaped(m: Machine, rs: seq<Record>, m': Machine)
    requires RunOk(m, rs, m')
    ensures Shaped(m')
    decreases |rs|
  {
    if rs != [] { EndIsShaped(Step(m, rs[0]).value, rs[1..], m'); }
  }

  // Every prefix of an accepted run is accepted and leaves a well-shaped stack.
  lemma {:induction false} PrefixIsShaped(m: Machine, rs: seq<Record>, m': Machine, k: nat) returns (mk: Machine)
    requires RunOk(m, rs, m') && k <= |rs|
    ensures RunOk(m, rs[..k], mk) && Shaped(mk)
    decreases |rs|
  {
    if k == 0 {
      mk := m;
    } else {
      mk := PrefixIsShaped(Step(m, rs[0]).value, rs[1..], m', k - 1);
      assert rs[..k][1..] == rs[1..][..k - 1];
    }
  }
}
