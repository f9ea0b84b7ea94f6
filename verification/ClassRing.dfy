// An object's class bases: a ring from each base to its parent, and from the
// root base back to the last child. Casts search it, virtual calls walk it.

module ClassRing {
  import opened Options

  type Oid = nat

  type Fn = nat

  class Base {
    const oid: Oid
    var preBase: Base?
    var fns: map<string, Fn>

    constructor (oid: Oid)
      ensures this.oid == oid && preBase == null && fns == map[]
    {
      this.oid := oid;
      preBase := null;
      fns := map[];
    }
  }

  // The position k steps back from i on a ring of n.
  function Back(i: nat, k: nat, n: nat): nat
    requires i < n && k <= n
    ensures Back(i, k, n) < n
  {
    if k <= i then i - k else n + i - k
  }

  // The bases of one object, root class first.
  ghost predicate Ring(chain: seq<Base>)
    reads chain`preBase
  {
    chain != [] && (forall i :: 0 <= i < |chain| ==> chain[i].preBase == chain[Back(i, 1, |chain|)])
    && forall i, j :: 0 <= i < j < |chain| ==> chain[i].oid != chain[j].oid
  }

  // find_##stru_name. The search has left steps to go: none of the bases it has
  // seen is the one looked for, and the next left steps lead to where it began.
  function Find(base: Base, mmid: Oid, untilid: Oid, ghost chain: seq<Base>, ghost i: nat, ghost left: nat): (r: Base?)
    requires Ring(chain) && i < |chain| && base == chain[i]
    requires if mmid == untilid then left == |chain| else left < |chain| && untilid == chain[Back(i, left, |chain|)].oid
    reads chain`preBase
    ensures r != null ==> r in chain && r.oid == mmid
    ensures r == null ==> forall k :: 0 <= k <= left ==> chain[Back(i, k, |chain|)].oid != mmid
    decreases left
  {
    if mmid == base.oid then base
    else if mmid == untilid then
      FirstStep(i, |chain|);
      NextSteps(chain, i, left);
      Find(base.preBase, mmid, base.oid, chain, Back(i, 1, |chain|), left - 1)
    else if base.oid != untilid then
      NextSteps(chain, i, left);
      Find(base.preBase, mmid, untilid, chain, Back(i, 1, |chain|), left - 1)
    else
      OnlyAtStart(chain, i, left);
      null
  }

  lemma FirstStep(i: nat, n: nat)
    requires i < n
    ensures Back(Back(i, 1, n), n - 1, n) == i
  {}

  lemma NextSteps(chain: seq<Base>, i: nat, left: nat)
    requires i < |chain| && 0 < left <= |chain|
    ensures forall k :: 0 < k <= left ==> Back(i, k, |chain|) == Back(Back(i, 1, |chain|), k - 1, |chain|)
  {}

  lemma OnlyAtStart(chain: seq<Base>, i: nat, left: nat)
    requires Ring(chain) && i < |chain| && left < |chain| && chain[i].oid == chain[Back(i, left, |chain|)].oid
    ensures left == 0
  {}

  // Every position is some steps back.
  lemma AllSeen(i: nat, j: nat, n: nat)
    requires i < n && j < n
    ensures exists k :: 0 <= k <= n && Back(i, k, n) == j
  {
    assert Back(i, if j <= i then i - j else n + i - j, n) == j;
  }

  // The one base of the class, if the object has it.
  ghost function OfClass(chain: seq<Base>, mmid: Oid): (r: Base?)
    ensures r != null ==> r in chain && r.oid == mmid
    ensures r == null ==> forall b :: b in chain ==> b.oid != mmid
  {
    if chain == [] then null else if chain[0].oid == mmid then chain[0] else OfClass(chain[1..], mmid)
  }

  // to##stru_name: wherever the search starts, it finds the base of the class,
  // and finds it exactly when the object has the class.
  lemma CastFindsClass(chain: seq<Base>, i: nat, mmid: Oid)
    requires Ring(chain) && i < |chain|
    ensures Find(chain[i], mmid, mmid, chain, i, |chain|) == OfClass(chain, mmid)
  {
    var r, q := Find(chain[i], mmid, mmid, chain, i, |chain|), OfClass(chain, mmid);
    if r == null && q != null {
      var j :| 0 <= j < |chain| && chain[j] == q;
      AllSeen(i, j, |chain|);
      assert false;
    }
    if r != null && q != null {
      var a :| 0 <= a < |chain| && chain[a] == r;
      var b :| 0 <= b < |chain| && chain[b] == q;
      assert a == b;
    }
  }

  // Casts compose: casting by way of another class changes nothing.
  lemma CastsCompose(chain: seq<Base>, i: nat, j: nat, a: Oid, b: Oid)
    requires Ring(chain) && i < |chain| && j < |chain|
    requires Find(chain[i], a, a, chain, i, |chain|) == chain[j]
    ensures Find(chain[j], b, b, chain, j, |chain|) == Find(chain[i], b, b, chain, i, |chain|)
    ensures Find(chain[j], chain[i].oid, chain[i].oid, chain, j, |chain|) == chain[i]
  {
    CastFindsClass(chain, i, b);
    CastFindsClass(chain, j, b);
    CastFindsClass(chain, j, chain[i].oid);
    var q := OfClass(chain, chain[i].oid);
    assert chain[i] in chain;
    var k :| 0 <= k < |chain| && chain[k] == q;
    assert k == i;
  }

  // ----- Virtual functions

  // The function of the most derived base that has registered one.
  ghost function MostDerived(chain: seq<Base>, name: string): Option<Fn>
    reads chain`fns
  {
    if chain == [] then None
    else
      var last := chain[|chain| - 1];
      if name in last.fns then Some(last.fns[name]) else MostDerived(chain[..|chain| - 1], name)
  }

  // What the parent lookup at base i returns, by GetParentFunction.
  ghost function ParentFound(chain: seq<Base>, name: string, i: nat): Option<Fn>
    requires i < |chain|
    reads chain`fns
  {
    if i > 0 then MostDerived(chain[..i], name) else MostDerived(chain, name)
  }

  class Object {
    const first: Base
    ghost const chain: seq<Base>

    ghost predicate Valid()
      reads this, chain
    {
      Ring(chain) && chain[0] == first
    }

    // Objects of a class with the given ids, root class first.
    constructor (oids: seq<Oid>)
      requires oids != [] && forall i, j :: 0 <= i < j < |oids| ==> oids[i] != oids[j]
      ensures Valid() && fresh(chain) && |chain| == |oids|
      ensures forall i :: 0 <= i < |oids| ==> chain[i].oid == oids[i] && chain[i].fns == map[]
    {
      var root := new Base(oids[0]);
      var bases := [root];
      for i := 1 to |oids|
        invariant |bases| == i && bases[0] == root && fresh(bases)
        invariant forall k :: 0 <= k < i ==> bases[k].oid == oids[k] && bases[k].fns == map[]
        invariant forall k :: 0 < k < i ==> bases[k].preBase == bases[k - 1] && bases[k] != root
      {
        var b := new Base(oids[i]);
        b.preBase := bases[i - 1];
        bases := bases + [b];
      }
      root.preBase := bases[|bases| - 1];
      first := root;
      chain := bases;
    }

    // __set_function_for_mmobj
    method SetFunction(base: Base, name: string, fn: Fn) returns (previous: Option<Fn>)
      requires Valid() && base in chain
      modifies base`fns
      ensures Valid() && base.fns == old(base.fns)[name := fn]
      ensures previous == if name in old(base.fns) then Some(old(base.fns)[name]) else None
    {
      previous := if name in base.fns then Some(base.fns[name]) else None;
      base.fns := base.fns[name := fn];
    }

    // The loop of both lookups, from base up to the first.
    method Walk(base: Base, name: string, ghost i: nat) returns (fn: Option<Fn>)
      requires Valid() && i < |chain| && base == chain[i]
      ensures fn == MostDerived(chain[..i + 1], name)
    {
      var b := base;
      ghost var k := i;
      while true
        invariant 0 <= k <= i && b == chain[k] && MostDerived(chain[..k + 1], name) == MostDerived(chain[..i + 1], name)
        decreases k
      {
        assert chain[..k + 1][..k] == chain[..k];
        if name in b.fns { return Some(b.fns[name]); }
        if b == first {
          OnlyRootIsFirst(chain, k);
          assert chain[..0] == [];
          return None;
        }
        b := b.preBase;
        k := k - 1;
      }
    }

    // __get_last_function_for_mmobj
    method GetLastFunction(name: string) returns (fn: Option<Fn>)
      requires Valid()
      ensures fn == MostDerived(chain, name)
    {
      assert chain[..|chain|] == chain;
      fn := Walk(first.preBase, name, |chain| - 1);
    }

    // __get_parent_function_for_mmobj. On the root base the walk wraps around
    // to the last child.
    method GetParentFunction(base: Base, name: string, ghost i: nat) returns (fn: Option<Fn>)
      requires Valid() && i < |chain| && base == chain[i]
      ensures fn == ParentFound(chain, name, i)
    {
      assert chain[..|chain|] == chain;
      fn := Walk(base.preBase, name, Back(i, 1, |chain|));
    }
  }

  lemma OnlyRootIsFirst(chain: seq<Base>, k: nat)
    requires Ring(chain) && k < |chain|
    ensures chain[k] == chain[0] ==> k == 0
  {}

  // Registering at a base changes what a call gives exactly when no more
  // derived base has the function.
  lemma {:induction false} MostDerivedWins(chain: seq<Base>, name: string, i: nat)
    requires i < |chain| && name in chain[i].fns && forall j :: i < j < |chain| ==> name !in chain[j].fns
    ensures MostDerived(chain, name) == Some(chain[i].fns[name])
  {
    if i < |chain| - 1 {
      MostDerivedWins(chain[..|chain| - 1], name, i);
    }
  }

  lemma {:induction false} NoneRegistered(chain: seq<Base>, name: string)
    ensures MostDerived(chain, name) == None <==> forall j :: 0 <= j < |chain| ==> name !in chain[j].fns
  {
    if chain != [] {
      NoneRegistered(chain[..|chain| - 1], name);
    }
  }

  // The parent lookup gives what the base's ancestors have registered exactly
  // when the base is not the root, or no base of the object has registered the
  // name: the root base has no ancestors, and the lookup wraps around.
  lemma ParentLookupIsRightExactly(chain: seq<Base>, name: string, i: nat)
    requires i < |chain|
    ensures ParentFound(chain, name, i) == MostDerived(chain[..i], name)
      <==> i > 0 || forall j :: 0 <= j < |chain| ==> name !in chain[j].fns
  {
    NoneRegistered(chain, name);
    NoneRegistered(chain[..i], name);
  }

  // An object of a root class and one child class, which has registered a
  // function: looking up the root's parent function gives the child's.
  method ParentOfRoot(fn: Fn) returns (found: Option<Fn>)
    ensures found == Some(fn)
  {
    var o := new Object([0, 1]);
    var child := o.first.preBase;
    var _ := o.SetFunction(child, "destroy", fn);
    found := o.GetParentFunction(o.first, "destroy", 0);
  }
}
