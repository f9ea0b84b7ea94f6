// Which blocks stay: what is held outside supports what it owns, and so does
// a cycle of owners.

module PoolLeaks {
  import opened Ownership
  import opened ManagedPools

  // ----- Cycles

  // A set of blocks that own each other is in the pool after any release and
  // any sweep.
  lemma CyclesLeak(s: State, free: set<Addr>, left: set<Addr>, c: set<Addr>)
    requires SelfOwned(s, c) && Largest(s, free, left)
    ensures c <= left
  {
    assert Supported(s, free, c);
  }

  ghost predicate Ranked(s: State, rank: Addr -> nat)
  {
    forall x, y :: x in s.blocks && y in s.blocks[x].fields ==> rank(x) > rank(y)
  }

  lemma RankedHasNoCycles(s: State, rank: Addr -> nat, c: set<Addr>)
    requires Inv(s, multiset{}, {}) && Ranked(s, rank) && SelfOwned(s, c)
    ensures c == {}
  {
    if c != {} {
      var b := Highest(c, rank);
      var x := OwnerIn(s, c, b);
      hide Inv, SelfOwned;
    }
  }

  lemma OwnerIn(s: State, c: set<Addr>, b: Addr) returns (x: Addr)
    requires Inv(s, multiset{}, {}) && SelfOwned(s, c) && b in c
    ensures x in c && x in s.blocks && b in s.blocks[x].fields
  {
    hide Inv;
    assert OwnedIn(s, c, b);
    x :| x in c && b in Held(s.held, x);
    assert x in s.blocks;
    hide SelfOwned;
    HeldAreFields(s, x);
  }

  lemma HeldAreFields(s: State, x: Addr)
    requires Inv(s, multiset{}, {}) && x in s.blocks
    ensures Held(s.held, x) == s.blocks[x].fields
  {
    hide Balanced, NoDup;
  }

  lemma {:induction false} Highest(s: set<Addr>, rank: Addr -> nat) returns (b: Addr)
    requires s != {}
    ensures b in s && forall x :: x in s ==> rank(x) <= rank(b)
    decreases s
  {
    b :| b in s;
    if s != {b} {
      var c := Highest(s - {b}, rank);
      if rank(c) > rank(b) { b := c; }
      assert forall x :: x in s ==> x in s - {b} || x == b || x in s;
    }
  }

  // A pool in which every block is referenced, but none from outside, is empty
  // if and only if ownership has no cycles.
  lemma NothingLeaks(s: State)
    requires Inv(s, multiset{}, {}) && s.ext == multiset{}
    requires forall b :: b in s.blocks ==> s.blocks[b].count > 0
    ensures s.blocks == map[] <==> exists rank: Addr -> nat :: Ranked(s, rank)
  {
    if s.blocks == map[] {
      assert Ranked(s, x => 0);
    }
    if rank: Addr -> nat :| Ranked(s, rank) {
      LargestIsLeft(s, s, {});
      assert SelfOwned(s, s.blocks.Keys);
      RankedHasNoCycles(s, rank, s.blocks.Keys);
    }
  }

  // ----- What is reachable from outside

  ghost predicate ReachedIn(s: State, b: Addr, k: nat)
    decreases k
  {
    b in s.blocks && if k == 0 then b in s.ext else exists x :: OwnerAt(s, x, b) && ReachedIn(s, x, k - 1)
  }

  ghost predicate OwnerAt(s: State, x: Addr, b: Addr) { b in Held(s.held, x) }

  ghost predicate IsReachable(s: State, b: Addr) { exists k: nat :: ReachedIn(s, b, k) }

  // A cycle that nothing outside leads to.
  ghost predicate Garbage(s: State, c: set<Addr>)
  {
    SelfOwned(s, c) && forall b :: b in c ==> !IsReachable(s, b)
  }

  // The sweep leaves exactly what is reachable from outside, if and only if
  // there are no unreachable cycles.
  lemma SweepKeepsReachable(s: State, left: set<Addr>)
    requires Inv(s, multiset{}, {}) && Largest(s, {}, left)
    ensures (forall b :: b in left <==> IsReachable(s, b)) <==> forall c: set<Addr> :: Garbage(s, c) ==> c == {}
  {
    hide Inv;
    var r := set b | b in s.blocks && IsReachable(s, b);
    ReachableIsSupported(s, r);
    if forall c: set<Addr> :: Garbage(s, c) ==> c == {} {
      RestIsGarbage(s, left, r);
      assert Garbage(s, left - r);
    }
    forall c: set<Addr> | Garbage(s, c) ensures c <= left && forall b :: b in c ==> !IsReachable(s, b) {
      CyclesLeak(s, {}, left, c);
    }
  }

  lemma HeldIsReachable(s: State, b: Addr)
    requires b in s.blocks && b in s.ext
    ensures IsReachable(s, b)
  {
    assert ReachedIn(s, b, 0);
  }

  lemma OwnedIsReachable(s: State, x: Addr, b: Addr)
    requires IsReachable(s, x) && b in s.blocks && b in Held(s.held, x)
    ensures IsReachable(s, b)
  {
    var k: nat :| ReachedIn(s, x, k);
    assert OwnerAt(s, x, b);
    assert ReachedIn(s, b, k + 1);
  }

  lemma ReachableIsSupported(s: State, r: set<Addr>)
    requires forall b :: b in r <==> b in s.blocks && IsReachable(s, b)
    ensures Supported(s, {}, r) && forall b :: IsReachable(s, b) ==> b in r
  {
    forall b | b in r ensures b in s.ext || OwnedIn(s, r, b) {
      var k: nat :| ReachedIn(s, b, k);
      if k > 0 {
        var x :| OwnerAt(s, x, b) && ReachedIn(s, x, k - 1);
        assert x in r;
      }
    }
  }

  lemma RestIsGarbage(s: State, left: set<Addr>, r: set<Addr>)
    requires Supported(s, {}, left) && forall b :: b in r <==> b in s.blocks && IsReachable(s, b)
    ensures Garbage(s, left - r)
  {
    var m := left - r;
    forall b | b in m ensures b in s.blocks && OwnedIn(s, m, b) && !IsReachable(s, b) {
      if b in s.ext { HeldIsReachable(s, b); }
      assert OwnedIn(s, left, b);
      var x :| x in left && b in Held(s.held, x);
      if x in r { OwnedIsReachable(s, x, b); }
    }
  }

  // With ranked ownership the sweep leaves exactly what is reachable.
  lemma RankedSweepIsExact(s: State, left: set<Addr>, rank: Addr -> nat)
    requires Inv(s, multiset{}, {}) && Largest(s, {}, left) && Ranked(s, rank)
    ensures forall b :: b in left <==> IsReachable(s, b)
  {
    SweepKeepsReachable(s, left);
    forall c: set<Addr> | Garbage(s, c) ensures c == {} { RankedHasNoCycles(s, rank, c); }
  }

  // Two new objects handed to each other and then swept: nothing outside holds
  // them, and both stay.
  method TwoOwnersStay(p: Pool) returns (a: Addr, b: Addr)
    requires p.Valid()
    modifies p
    ensures p.Valid() && a != b && a in p.blocks && b in p.blocks && p.ext == old(p.ext)
  {
    hide Inv, SelfOwned, Largest, Survivors;
    a := p.Alloc(1, true);
    b := p.Alloc(1, true);
    p.Own(a, b);
    p.Own(b, a);
    ghost var s := p.S();
    EachOwnsTheOther(s, a, b);
    p.ReleaseUnused();
    CyclesLeak(s, {}, p.blocks.Keys, {a, b});
    assert a in {a, b} && b in {a, b};
  }

  lemma EachOwnsTheOther(s: State, a: Addr, b: Addr)
    requires a in s.blocks && b in s.blocks && b in Held(s.held, a) && a in Held(s.held, b)
    ensures SelfOwned(s, {a, b})
  {
    assert OwnedIn(s, {a, b}, a) && OwnedIn(s, {a, b}, b);
  }
}
