// Who holds what: external holds, and the references that blocks own.

module Ownership {
  type Addr = nat

  const NULL: Addr := 0

  // A managed block: its size, retained count and stored callback, whether it
  // is an object (to be released with its destroy callback), and the blocks
  // that its memory owns, in the order in which destroy releases them.
  datatype Block = Block(size: nat, count: nat, cb: bool, isObject: bool, fields: seq<Addr>)

  type Blocks = map<Addr, Block>

  function Held(held: map<Addr, seq<Addr>>, a: Addr): seq<Addr> { if a in held then held[a] else [] }

  // All references owned by the blocks in the list.
  ghost function Owned(order: seq<Addr>, held: map<Addr, seq<Addr>>): multiset<Addr>
  {
    if order == [] then multiset{} else multiset(Held(held, order[0])) + Owned(order[1..], held)
  }

  ghost predicate NoDup(s: seq<Addr>) { forall i, j :: 0 <= i < j < |s| ==> s[i] != s[j] }

  function Without(s: seq<Addr>, a: Addr): (r: seq<Addr>)
    ensures forall x :: x in r <==> x in s && x != a
  {
    if s == [] then [] else if s[0] == a then Without(s[1..], a) else [s[0]] + Without(s[1..], a)
  }

  lemma {:induction false} OwnedElsewhere(order: seq<Addr>, held: map<Addr, seq<Addr>>, held': map<Addr, seq<Addr>>)
    requires forall x :: x in order ==> Held(held, x) == Held(held', x)
    ensures Owned(order, held) == Owned(order, held')
  {
    if order != [] { OwnedElsewhere(order[1..], held, held'); }
  }

  lemma {:induction false} OwnedUpdate(order: seq<Addr>, held: map<Addr, seq<Addr>>, a: Addr, s: seq<Addr>)
    requires NoDup(order) && a in order
    ensures Owned(order, held[a := s]) + multiset(Held(held, a)) == Owned(order, held) + multiset(s)
  {
    var held' := held[a := s];
    if order[0] == a {
      assert a !in order[1..];
      OwnedElsewhere(order[1..], held, held');
    } else {
      OwnedUpdate(order[1..], held, a, s);
      assert Held(held', order[0]) == Held(held, order[0]);
      var m, o, o' := multiset(Held(held, order[0])), Owned(order[1..], held), Owned(order[1..], held');
      assert (m + o') + multiset(Held(held, a)) == m + (o' + multiset(Held(held, a)));
      assert m + (o + multiset(s)) == (m + o) + multiset(s);
    }
  }

  lemma {:induction false} WithoutNone(s: seq<Addr>, a: Addr)
    requires a !in s
    ensures Without(s, a) == s
  {
    if s != [] { WithoutNone(s[1..], a); }
  }

  lemma {:induction false} WithoutNoDup(s: seq<Addr>, a: Addr)
    requires NoDup(s)
    ensures NoDup(Without(s, a))
  {
    if s != [] {
      WithoutNoDup(s[1..], a);
      assert s[0] !in s[1..];
    }
  }

  lemma {:induction false} OwnedWithout(order: seq<Addr>, held: map<Addr, seq<Addr>>, a: Addr)
    requires NoDup(order) && Held(held, a) == []
    ensures Owned(Without(order, a), held - {a}) == Owned(order, held)
  {
    if order != [] {
      OwnedWithout(order[1..], held, a);
    }
  }

  lemma {:induction false} OwnedSnoc(order: seq<Addr>, held: map<Addr, seq<Addr>>, a: Addr)
    ensures Owned(order + [a], held) == Owned(order, held) + multiset(Held(held, a))
  {
    if order == [] {
      assert order + [a] == [a] && [a][1..] == [];
    } else {
      assert (order + [a])[1..] == order[1..] + [a];
      OwnedSnoc(order[1..], held, a);
    }
  }

  lemma {:induction false} OwnedSplit(order: seq<Addr>, held: map<Addr, seq<Addr>>, a: Addr)
    requires NoDup(order) && a in order
    ensures Owned(order, held) == Owned(Without(order, a), held) + multiset(Held(held, a))
  {
    if order[0] == a {
      assert a !in order[1..];
      WithoutNone(order[1..], a);
    } else {
      OwnedSplit(order[1..], held, a);
    }
  }

  lemma {:induction false} OwnersOf(order: seq<Addr>, held: map<Addr, seq<Addr>>, b: Addr)
    requires b in Owned(order, held)
    ensures exists x :: x in order && b in Held(held, x)
  {
    if b !in Held(held, order[0]) {
      OwnersOf(order[1..], held, b);
      var x :| x in order[1..] && b in Held(held, x);
      assert x in order;
    } else {
      assert order[0] in order;
    }
  }

  // ----- The state of a pool

  datatype State = State(blocks: Blocks, order: seq<Addr>, ext: multiset<Addr>, held: map<Addr, seq<Addr>>)

  // All references there are: held outside, owned by blocks, or in hand.
  ghost function Refs(s: State, extra: multiset<Addr>): multiset<Addr>
  {
    s.ext + Owned(s.order, s.held) + extra
  }

  ghost function Size(s: State, extra: multiset<Addr>): nat { |Refs(s, extra)| }

  // Every count is the number of references, and nothing refers to what is not
  // in the pool.
  ghost predicate Balanced(s: State, extra: multiset<Addr>)
  {
    (forall b :: b in s.blocks ==> s.blocks[b].count == Refs(s, extra)[b])
    && forall b :: b in Refs(s, extra) ==> b in s.blocks
  }

  ghost predicate Shaped(s: State, busy: set<Addr>)
  {
    NoDup(s.order) && NULL !in s.blocks && (forall b :: b in s.blocks <==> b in s.order)
    && s.held.Keys == s.blocks.Keys
    && (forall b :: b in s.blocks && b !in busy ==> s.held[b] == s.blocks[b].fields)
    && (forall b :: b in s.blocks && s.blocks[b].fields != [] ==> s.blocks[b].isObject)
    && (forall b :: b in s.blocks && s.blocks[b].count == 0 ==> s.blocks[b].cb || s.blocks[b].fields == [])
    && (forall b :: b in busy ==> b in s.blocks && s.blocks[b].count == 0)
  }

  // busy: the blocks whose destroy callbacks are running.
  ghost predicate Inv(s: State, extra: multiset<Addr>, busy: set<Addr>)
  {
    Shaped(s, busy) && Balanced(s, extra)
  }

  // ----- Cycles

  // Every block of c is owned by a block of c: a cycle, or several.
  ghost predicate SelfOwned(s: State, c: set<Addr>)
  {
    forall b :: b in c ==> b in s.blocks && OwnedIn(s, c, b)
  }

  ghost predicate OwnedIn(s: State, c: set<Addr>, b: Addr)
  {
    exists x :: x in c && b in Held(s.held, x)
  }

  // No cycle is broken.
  ghost predicate KeepsCycles(s: State, s': State)
  {
    forall c: set<Addr> :: SelfOwned(s, c) ==> SelfOwned(s', c)
  }

  lemma {:induction false} OwnedByOne(order: seq<Addr>, held: map<Addr, seq<Addr>>, x: Addr, b: Addr)
    requires x in order && b in Held(held, x)
    ensures b in Owned(order, held)
  {
    if x != order[0] { OwnedByOne(order[1..], held, x, b); }
  }

  lemma CyclesAreCounted(s: State, c: set<Addr>, a: Addr, extra: multiset<Addr>, busy: set<Addr>)
    requires Inv(s, extra, busy) && SelfOwned(s, c) && a in c
    ensures s.blocks[a].count > 0
  {
    assert OwnedIn(s, c, a);
    var x :| x in c && a in Held(s.held, x);
    assert x in s.blocks;
    OwnedByOne(s.order, s.held, x, a);
    assert Refs(s, extra)[a] > 0;
  }

  // A block without references is in no cycle.
  lemma ZeroIsInNoCycle(s: State, a: Addr, extra: multiset<Addr>, busy: set<Addr>)
    requires Inv(s, extra, busy) && a in s.blocks && s.blocks[a].count == 0
    ensures forall c: set<Addr> :: SelfOwned(s, c) ==> a !in c
  {
    hide Inv, SelfOwned;
    forall c: set<Addr> | SelfOwned(s, c) && a in c ensures false {
      CyclesAreCounted(s, c, a, extra, busy);
    }
  }

  // Nothing happens to the cycles when a alone changes, which is in none.
  lemma CyclesStay(s: State, s': State, a: Addr)
    requires forall c: set<Addr> :: SelfOwned(s, c) ==> a !in c
    requires forall b :: b in s.blocks && b != a ==> b in s'.blocks && Held(s'.held, b) == Held(s.held, b)
    ensures KeepsCycles(s, s')
  {
    hide Held;
    forall c: set<Addr> | SelfOwned(s, c) ensures SelfOwned(s', c) {
      forall b | b in c ensures b in s'.blocks && OwnedIn(s', c, b) {
        assert OwnedIn(s, c, b);
        var x :| x in c && b in Held(s.held, x);
        assert b in Held(s'.held, x);
      }
    }
  }

  // What a release may do to the blocks: lower counts, note callbacks, remove
  // blocks whose last reference is gone. Blocks that had no reference stay.
  ghost predicate Released(s: State, s': State)
  {
    KeepsCycles(s, s') &&
    s'.ext == s.ext && Owned(s'.order, s'.held) <= Owned(s.order, s.held)
    && (forall b :: b in s'.blocks ==> b in s.blocks && SameBlock(s, s', b))
    && forall b :: b in s.blocks && s.blocks[b].count == 0 ==> b in s'.blocks && s'.blocks[b] == s.blocks[b]
  }

  ghost predicate SameBlock(s: State, s': State, b: Addr)
  {
    b in s.blocks && b in s'.blocks && Held(s'.held, b) == Held(s.held, b)
    && s'.blocks[b] == s.blocks[b].(count := s'.blocks[b].count, cb := s'.blocks[b].cb)
    && s'.blocks[b].count <= s.blocks[b].count
  }

  // As Released, when a itself is destroyed.
  ghost predicate Destroyed(s: State, s': State, a: Addr)
  {
    KeepsCycles(s, s') &&
    s'.ext == s.ext && Owned(s'.order, s'.held) <= Owned(s.order, s.held)
    && (forall b :: b in s'.blocks && b != a ==> b in s.blocks && SameBlock(s, s', b))
    && forall b :: b in s.blocks && b != a && s.blocks[b].count == 0 ==> b in s'.blocks && s'.blocks[b] == s.blocks[b]
  }

  // ----- Steps

  // One count goes down with the reference in hand.
  lemma OneLess(s: State, s': State, a: Addr, cb: bool, extra: multiset<Addr>, busy: set<Addr>)
    requires Inv(s, extra + multiset{a}, busy) && a in s.blocks && s.blocks[a].count > 0
    requires cb || !s.blocks[a].isObject || s.blocks[a].count > 1
    requires s' == s.(blocks := s.blocks[a := s.blocks[a].(count := s.blocks[a].count - 1, cb := cb)])
    ensures Inv(s', extra, busy) && a !in busy && Released(s, s')
    ensures Size(s', extra) < Size(s, extra + multiset{a})
  {
    OneRefLess(s, s', a, extra);
    StillShaped(s, s', a, cb, busy);
    OneReleased(s, s', a, cb);
    hide Balanced, Shaped, Released, Size;
  }

  lemma OneReleased(s: State, s': State, a: Addr, cb: bool)
    requires a in s.blocks && s.blocks[a].count > 0
    requires s' == s.(blocks := s.blocks[a := s.blocks[a].(count := s.blocks[a].count - 1, cb := cb)])
    ensures Released(s, s')
  {
    hide Owned;
    CountsOnly(s, s');
    hide KeepsCycles;
  }

  lemma CountsOnly(s: State, s': State)
    requires s'.blocks.Keys == s.blocks.Keys && s'.held == s.held
    ensures KeepsCycles(s, s')
  {
    forall c: set<Addr> | SelfOwned(s, c) ensures SelfOwned(s', c) {
      forall b | b in c ensures OwnedIn(s', c, b) { assert OwnedIn(s, c, b); }
    }
  }

  lemma StillShaped(s: State, s': State, a: Addr, cb: bool, busy: set<Addr>)
    requires Shaped(s, busy) && a in s.blocks && s.blocks[a].count > 0
    requires cb || !s.blocks[a].isObject || s.blocks[a].count > 1
    requires s' == s.(blocks := s.blocks[a := s.blocks[a].(count := s.blocks[a].count - 1, cb := cb)])
    ensures Shaped(s', busy) && a !in busy
  {
    hide NoDup;
    var b' := s'.blocks[a];
    assert b'.fields == s.blocks[a].fields && b'.cb == cb;
    assert s'.blocks.Keys == s.blocks.Keys;
  }

  lemma OneRefLess(s: State, s': State, a: Addr, extra: multiset<Addr>)
    requires Balanced(s, extra + multiset{a}) && a in s.blocks && s.blocks[a].count > 0
    requires s'.order == s.order && s'.held == s.held && s'.ext == s.ext && s'.blocks.Keys == s.blocks.Keys
    requires forall b :: b in s.blocks ==> s'.blocks[b].count == s.blocks[b].count - if b == a then 1 else 0
    ensures Balanced(s', extra) && Size(s', extra) < Size(s, extra + multiset{a})
  {
    hide Owned;
    var before, after := Refs(s, extra + multiset{a}), Refs(s', extra);
    assert before == after + multiset{a};
    hide Refs;
    assert before[a] == after[a] + 1 && forall b :: b != a ==> before[b] == after[b];
  }

  // A running callback takes the next reference of its block in hand.
  lemma TakeInHand(s: State, s': State, a: Addr, y: Addr, rest: seq<Addr>, extra: multiset<Addr>, busy: set<Addr>)
    requires Inv(s, extra, busy) && a in busy && Held(s.held, a) == [y] + rest && s' == s.(held := s.held[a := rest])
    ensures Inv(s', extra + multiset{y}, busy) && Size(s', extra + multiset{y}) == Size(s, extra)
    ensures y in s.blocks && s.blocks[y].count > 0
    ensures Owned(s'.order, s'.held) <= Owned(s.order, s.held) && KeepsCycles(s, s')
  {
    hide KeepsCycles;
    CyclesAround(s, s', a, rest, extra, busy);
    HeldChanged(s, a, rest, busy);
    RefInHand(s, s', a, y, rest, extra);
    InHandIsCounted(s, s', y, extra);
    hide Owned, Shaped, Held, Balanced, Refs;
  }

  lemma CyclesAround(s: State, s': State, a: Addr, rest: seq<Addr>, extra: multiset<Addr>, busy: set<Addr>)
    requires Inv(s, extra, busy) && a in busy && s' == s.(held := s.held[a := rest])
    ensures KeepsCycles(s, s')
  {
    hide KeepsCycles;
    ZeroIsInNoCycle(s, a, extra, busy);
    hide Inv;
    CyclesStay(s, s', a);
  }

  lemma InHandIsCounted(s: State, s': State, y: Addr, extra: multiset<Addr>)
    requires Balanced(s, extra) && s'.blocks == s.blocks && Refs(s', extra + multiset{y}) == Refs(s, extra)
    ensures Balanced(s', extra + multiset{y}) && y in s.blocks && s.blocks[y].count > 0
  {
    hide Owned;
    assert y in Refs(s', extra + multiset{y});
    hide Refs;
    assert Refs(s, extra)[y] > 0;
  }

  lemma RefInHand(s: State, s': State, a: Addr, y: Addr, rest: seq<Addr>, extra: multiset<Addr>)
    requires NoDup(s.order) && a in s.order && Held(s.held, a) == [y] + rest && s' == s.(held := s.held[a := rest])
    ensures Refs(s', extra + multiset{y}) == Refs(s, extra) && Owned(s'.order, s'.held) <= Owned(s.order, s.held)
  {
    OwnedUpdate(s.order, s.held, a, rest);
    var o, o' := Owned(s.order, s.held), Owned(s'.order, s'.held);
    assert multiset([y] + rest) == multiset{y} + multiset(rest);
    MoveOne(s.ext, o, o', multiset(rest), extra, y);
  }

  lemma MoveOne(e: multiset<Addr>, o: multiset<Addr>, o': multiset<Addr>, m: multiset<Addr>, extra: multiset<Addr>,
                y: Addr)
    requires o' + (multiset{y} + m) == o + m
    ensures o' <= o && e + o' + (extra + multiset{y}) == e + o + extra
  {
    forall x ensures o'[x] + multiset{y}[x] == o[x] {
      assert (o' + (multiset{y} + m))[x] == (o + m)[x];
    }
    assert o' + multiset{y} == o;
    assert e + o' + (extra + multiset{y}) == e + (o' + multiset{y}) + extra;
  }

  lemma HeldChanged(s: State, a: Addr, rest: seq<Addr>, busy: set<Addr>)
    requires Shaped(s, busy) && a in busy
    ensures Shaped(s.(held := s.held[a := rest]), busy) && a in s.order
  {
    hide NoDup;
    assert s.held[a := rest].Keys == s.held.Keys;
  }

  lemma BeginDestroy(s: State, a: Addr, extra: multiset<Addr>, busy: set<Addr>)
    requires Inv(s, extra, busy) && a in s.blocks && s.blocks[a].count == 0
    ensures Inv(s, extra, busy + {a})
  {}

  // A block without references, that holds none, leaves the pool.
  lemma LeavePool(s: State, s': State, a: Addr, extra: multiset<Addr>, busy: set<Addr>)
    requires Inv(s, extra, busy + {a}) && a !in busy && Held(s.held, a) == []
    requires s' == State(s.blocks - {a}, Without(s.order, a), s.ext, s.held - {a})
    ensures Inv(s', extra, busy) && Destroyed(s, s', a)
  {
    hide KeepsCycles;
    LeaveShape(s, a, busy);
    LeaveRefs(s, s', a, busy, extra);
    ZeroIsInNoCycle(s, a, extra, busy + {a});
    hide Owned, Without, Shaped, Refs, Balanced, Destroyed;
    CyclesStay(s, s', a);
    OthersLeft(s, s', a);
    LeaveBalance(s, s', a, extra);
  }

  lemma OthersLeft(s: State, s': State, a: Addr)
    requires s'.blocks == s.blocks - {a} && s'.held == s.held - {a} && s'.ext == s.ext
    requires Owned(s'.order, s'.held) == Owned(s.order, s.held) && KeepsCycles(s, s')
    ensures Destroyed(s, s', a)
  {
    hide Owned, KeepsCycles;
  }

  lemma LeaveRefs(s: State, s': State, a: Addr, busy: set<Addr>, extra: multiset<Addr>)
    requires Shaped(s, busy + {a}) && Held(s.held, a) == []
    requires s' == State(s.blocks - {a}, Without(s.order, a), s.ext, s.held - {a})
    ensures Owned(s'.order, s'.held) == Owned(s.order, s.held) && Refs(s', extra) == Refs(s, extra)
  {
    OwnedWithout(s.order, s.held, a);
  }

  lemma LeaveBalance(s: State, s': State, a: Addr, extra: multiset<Addr>)
    requires Balanced(s, extra) && a in s.blocks && s.blocks[a].count == 0
    requires s'.blocks == s.blocks - {a} && Refs(s', extra) == Refs(s, extra)
    ensures Balanced(s', extra)
  {
    hide Refs;
    assert Refs(s, extra)[a] == 0;
  }

  lemma LeaveShape(s: State, a: Addr, busy: set<Addr>)
    requires Shaped(s, busy + {a}) && a !in busy
    ensures Shaped(State(s.blocks - {a}, Without(s.order, a), s.ext, s.held - {a}), busy)
    ensures a in s.blocks && s.blocks[a].count == 0
  {
    hide NoDup, Without;
    WithoutNoDup(s.order, a);
    assert a in busy + {a};
    var bs, held := s.blocks - {a}, s.held - {a};
    assert held.Keys == bs.Keys && bs.Keys == s.blocks.Keys - {a};
    forall b | b in bs && b !in busy ensures held[b] == bs[b].fields { assert b !in busy + {a}; }
  }

  // Fewer references owned, fewer references.
  lemma NotMoreRefs(s: State, s': State, extra: multiset<Addr>)
    requires s'.ext == s.ext && Owned(s'.order, s'.held) <= Owned(s.order, s.held)
    ensures Size(s', extra) <= Size(s, extra)
  {
    var o, o' := Owned(s.order, s.held), Owned(s'.order, s'.held);
    hide Owned;
    assert o == o' + (o - o');
    assert s.ext + o + extra == (s.ext + o' + extra) + (o - o');
  }

  // ----- What releases leave

  // Every block of c is free, held outside, or owned by a block of c.
  ghost predicate Supported(s: State, free: set<Addr>, c: set<Addr>)
  {
    forall b :: b in c ==> b in s.blocks && (b in free || b in s.ext || OwnedIn(s, c, b))
  }

  ghost predicate Largest(s: State, free: set<Addr>, c: set<Addr>)
  {
    Supported(s, free, c) && forall d: set<Addr> :: Supported(s, free, d) ==> d <= c
  }

  ghost function Zeros(s: State): set<Addr> { set b | b in s.blocks && s.blocks[b].count == 0 }

  ghost predicate Survivors(s: State, s': State)
  {
    KeepsCycles(s, s') && forall b :: b in s'.blocks ==> SameBlock(s, s', b)
  }

  // When no cycle was broken and counts are right, what is left is all that is
  // supported, by what is held outside, by blocks not yet freed, or by itself.
  lemma LargestIsLeft(s: State, s': State, free: set<Addr>)
    requires Survivors(s, s') && s'.ext == s.ext && Inv(s', multiset{}, {})
    requires free <= s'.blocks.Keys && Zeros(s') <= free
    ensures Largest(s, free, s'.blocks.Keys)
  {
    hide Inv, KeepsCycles, SelfOwned;
    forall b | b in s'.blocks ensures b in s.blocks && (b in free || b in s.ext || OwnedIn(s, s'.blocks.Keys, b)) {
      assert SameBlock(s, s', b);
      if b !in free && b !in s.ext { OwnerLeft(s, s', b); }
    }
    forall d: set<Addr> | Supported(s, free, d) ensures d <= s'.blocks.Keys {
      GoneIsSelfOwned(s, s', free, d);
      CycleIsLeft(s, s', d - s'.blocks.Keys);
      assert d <= s'.blocks.Keys;
    }
  }

  lemma CycleIsLeft(s: State, s': State, c: set<Addr>)
    requires KeepsCycles(s, s') && SelfOwned(s, c)
    ensures c <= s'.blocks.Keys
  {
    assert SelfOwned(s', c);
  }

  lemma OwnerLeft(s: State, s': State, b: Addr)
    requires Inv(s', multiset{}, {}) && Survivors(s, s') && s'.ext == s.ext
    requires b in s'.blocks && s'.blocks[b].count > 0 && b !in s.ext
    ensures OwnedIn(s, s'.blocks.Keys, b)
  {
    hide KeepsCycles;
    assert Refs(s', multiset{})[b] > 0;
    OwnersOf(s'.order, s'.held, b);
    var x :| x in s'.order && b in Held(s'.held, x);
    assert SameBlock(s, s', x);
  }

  // Of a supported set, what is gone would have supported itself.
  lemma GoneIsSelfOwned(s: State, s': State, free: set<Addr>, d: set<Addr>)
    requires Survivors(s, s') && s'.ext == s.ext && Inv(s', multiset{}, {})
    requires free <= s'.blocks.Keys && Supported(s, free, d)
    ensures SelfOwned(s, d - s'.blocks.Keys)
  {
    hide KeepsCycles, Inv;
    var m := d - s'.blocks.Keys;
    forall b | b in m ensures b in s.blocks && OwnedIn(s, m, b) {
      NotReferenced(s, s', b);
      assert OwnedIn(s, d, b);
      var x :| x in d && b in Held(s.held, x);
      assert x in m;
    }
  }

  lemma NotReferenced(s: State, s': State, b: Addr)
    requires Survivors(s, s') && s'.ext == s.ext && Inv(s', multiset{}, {}) && b !in s'.blocks
    ensures b !in s.ext && forall x :: x in s'.blocks ==> b !in Held(s.held, x)
  {
    hide KeepsCycles;
    assert b !in Refs(s', multiset{});
    forall x | x in s'.blocks ensures b !in Held(s.held, x) {
      assert SameBlock(s, s', x);
      if b in Held(s'.held, x) { OwnedByOne(s'.order, s'.held, x, b); }
    }
  }
}
