// The reference-counted pool: releases with their cascades of destroy
// callbacks, and the sweep of what was released automatically.

module ManagedPools {
  import opened Ownership

  const SWEEP_BATCH: nat := 16

  class Pool {
    var blocks: Blocks
    // The order in which the hash table lists the blocks.
    var order: seq<Addr>
    var nextAddr: Addr
    ghost var ext: multiset<Addr>
    ghost var held: map<Addr, seq<Addr>>

    ghost function S(): State
      reads this
    {
      State(blocks, order, ext, held)
    }

    ghost predicate Valid()
      reads this
    {
      Inv(S(), multiset{}, {}) && nextAddr > NULL && forall b :: b in blocks ==> b < nextAddr
    }

    constructor ()
      ensures Valid() && blocks == map[] && ext == multiset{}
    {
      blocks, order, nextAddr := map[], [], 1;
      ext, held := multiset{}, map[];
    }

    // _mgn_mem_release: one reference to a, in hand, is given up. A block that
    // is not in the pool, or has no reference, is an error and left alone.
    method ReleaseRef(a: Addr, cb: bool, release: bool, ghost extra: multiset<Addr>, ghost busy: set<Addr>)
      requires Inv(S(), if a in blocks && blocks[a].count > 0 then extra + multiset{a} else extra, busy)
      requires a in blocks ==> cb || !blocks[a].isObject
      modifies `blocks, `order, `held
      ensures Inv(S(), extra, busy) && Released(old(S()), S())
      ensures NewZeros(old(blocks), blocks, if release then {} else {a})
      ensures a !in old(blocks) || old(blocks[a].count) == 0 ==> S() == old(S())
      ensures a in old(blocks) && (old(blocks[a].count) > 1 || (old(blocks[a].count) == 1 && !release)) ==>
        order == old(order) && held == old(held)
        && blocks == old(blocks)[a := old(blocks[a]).(count := old(blocks[a].count) - 1, cb := cb)]
      ensures a in old(blocks) && old(blocks[a].count) == 1 && release ==> a !in blocks
      decreases Size(S(), extra + multiset{a}), 0
    {
      hide Inv, Size;
      if a !in blocks { return; }
      if blocks[a].count == 0 { return; }
      blocks := blocks[a := blocks[a].(count := blocks[a].count - 1, cb := cb)];
      OneLess(old(S()), S(), a, cb, extra, busy);
      if blocks[a].count == 0 && release {
        ghost var s := S();
        FreeBlock(a, extra, busy);
        ReleasedAndFreed(old(S()), s, S(), a);
      }
    }

    // The callback, then HASH_DEL.
    method FreeBlock(a: Addr, ghost extra: multiset<Addr>, ghost busy: set<Addr>)
      requires Inv(S(), extra, busy) && a in blocks && blocks[a].count == 0 && a !in busy
      modifies `blocks, `order, `held
      ensures Inv(S(), extra, busy) && a !in blocks && Destroyed(old(S()), S(), a)
      ensures NewZeros(old(blocks), blocks, {})
      decreases Size(S(), extra), 3
    {
      hide Inv, Size, Running, Destroyed, NewZeros, Held, Without;
      NoCallbackNeeded(S(), a, extra, busy);
      if blocks[a].cb {
        Destroy(a, extra, busy);
        CallbackDone(old(S()), S(), a, extra, busy);
      }
      ghost var s := S();
      blocks := blocks - {a};
      order := Without(order, a);
      held := held - {a};
      LeavePool(s, S(), a, extra, busy);
      DestroyedTwice(old(S()), s, S(), a);
      ZerosWithout(old(blocks), s.blocks, a);
    }

    // __trigger_release_mmobj: destroy gives up the references the object owns,
    // one after the other.
    method Destroy(a: Addr, ghost extra: multiset<Addr>, ghost busy: set<Addr>)
      requires Inv(S(), extra, busy) && a in blocks && blocks[a].count == 0 && a !in busy
      modifies `blocks, `order, `held
      ensures Running(old(S()), S(), a, [], extra, busy)
      decreases Size(S(), extra), 2
    {
      var fields := blocks[a].fields;
      ghost var s0 := S();
      StartRunning(s0, a, extra, busy);
      hide Running, Inv, Size;
      ReleaseFields(a, fields, s0, extra, busy);
    }

    method ReleaseFields(a: Addr, fields: seq<Addr>, ghost s0: State, ghost extra: multiset<Addr>,
                         ghost busy: set<Addr>)
      requires Running(s0, S(), a, fields, extra, busy)
      modifies `blocks, `order, `held
      ensures Running(s0, S(), a, [], extra, busy)
      decreases Size(s0, extra), 2, 0
    {
      hide Running, Size;
      var k := 0;
      while k < |fields|
        invariant k <= |fields| && Running(s0, S(), a, fields[k..], extra, busy)
      {
        Uncons(fields[k..]);
        DestroyNext(a, fields[k], fields[k..][1..], s0, extra, busy);
        k := k + 1;
      }
      assert fields[k..] == [];
    }

    method DestroyNext(a: Addr, y: Addr, ghost rest: seq<Addr>, ghost s0: State, ghost extra: multiset<Addr>,
                       ghost busy: set<Addr>)
      requires Running(s0, S(), a, [y] + rest, extra, busy)
      modifies `blocks, `order, `held
      ensures Running(s0, S(), a, rest, extra, busy)
      decreases Size(s0, extra), 1
    {
      hide Inv, Size, Owned, Released, Destroyed, NewZeros;
      DestroyedShrinks(s0, S(), a, extra);
      held := held[a := rest];
      ghost var s := S();
      TakeInHand(old(S()), s, a, y, rest, extra, busy + {a});
      assert held[a] == rest;
      ReleaseRef(y, blocks[y].isObject, true, extra, busy + {a});
      ZeroStays(s, S(), a);
      DestroyedThenReleased(old(S()), s, S(), a);
      DestroyedTwice(s0, old(S()), S(), a);
      ZerosTwice(s0.blocks, s.blocks, blocks);
    }

    // ----- The interface

    // mgn_mem_ralloc on no memory.
    method Alloc(size: nat, isObject: bool) returns (a: Addr)
      requires Valid()
      modifies this
      ensures Valid()
      ensures size == 0 ==> a == NULL && S() == old(S())
      ensures size > 0 ==> a !in old(blocks) && a != NULL && order == old(order) + [a] && ext == old(ext) + multiset{a}
      ensures size > 0 ==> blocks == old(blocks)[a := Block(size, 1, false, isObject, [])]
    {
      hide Inv;
      if size == 0 { return NULL; }
      a := nextAddr;
      nextAddr := nextAddr + 1;
      blocks := blocks[a := Block(size, 1, false, isObject, [])];
      order := order + [a];
      ext, held := ext + multiset{a}, held[a := []];
      Allocated(old(S()), S(), a);
    }

    // mgn_mem_ralloc: memory that is large enough stays; that of a single holder
    // moves; with more holders the caller gives up its share and gets a copy.
    method Ralloc(origin: Addr, size: nat) returns (a: Addr)
      requires Valid()
      requires origin in blocks && blocks[origin].count > 0 ==> origin in ext
      modifies this
      ensures Valid()
      ensures size == 0 || (origin !in old(blocks) && origin != NULL) ==> a == NULL && S() == old(S())
      ensures a != NULL ==> a in blocks && blocks[a].size >= size
      ensures size > 0 && origin == NULL ==>
        a !in old(blocks) && blocks == old(blocks)[a := Block(size, 1, false, false, [])]
        && order == old(order) + [a] && ext == old(ext) + multiset{a} && held == old(held)[a := []]
      ensures size > 0 && origin in old(blocks) && size <= old(blocks[origin]).size ==> a == origin && S() == old(S())
      // Too small: a new block of the size asked for, and all others stay.
      ensures origin in old(blocks) && size > old(blocks[origin]).size ==>
        a != NULL && a !in old(blocks) && blocks[a].size == size && blocks[a].count == 1 && order[|order| - 1..] == [a]
        && blocks.Keys == old(blocks.Keys) - (if old(blocks[origin]).count == 1 then {origin} else {}) + {a}
        && forall b :: b in old(blocks) && b != origin ==>
          blocks[b] == old(blocks[b]) && Held(held, b) == Held(old(held), b)
      // A single holder's block is replaced, with its callback and what it owns.
      ensures origin in old(blocks) && size > old(blocks[origin]).size && old(blocks[origin]).count == 1 ==>
        origin !in blocks && ext == old(ext) - multiset{origin} + multiset{a}
        && blocks[a].cb == old(blocks[origin]).cb && blocks[a].isObject == old(blocks[origin]).isObject
        && blocks[a].fields == old(blocks[origin]).fields && Held(held, a) == Held(old(held), origin)
      // One of several holders gives up its share, and owns raw memory.
      ensures origin in old(blocks) && size > old(blocks[origin]).size && old(blocks[origin]).count != 1 ==>
        origin in blocks && blocks[a] == Block(size, 1, false, false, []) && Held(held, a) == []
        && Held(held, origin) == Held(old(held), origin)
        && if old(blocks[origin]).count == 0 then blocks[origin] == old(blocks[origin]) && ext == old(ext) + multiset{a}
           else blocks[origin] == old(blocks[origin]).(count := old(blocks[origin]).count - 1)
                && ext == old(ext) - multiset{origin} + multiset{a}
    {
      hide Inv;
      NullIsNoBlock(S());
      if size == 0 { return NULL; }
      if origin in blocks {
        if size <= blocks[origin].size { return origin; }
        a := nextAddr;
        nextAddr := nextAddr + 1;
        if blocks[origin].count == 1 {
          MoveAlone(origin, a, size);
        } else {
          GiveUpShare(origin, a, size);
        }
      } else {
        if origin != NULL { return NULL; }
        a := nextAddr;
        nextAddr := nextAddr + 1;
        WithNewIsValid(S(), a, size);
        AddNew(a, size);
      }
    }

    // The memory of a single holder moves.
    method MoveAlone(o: Addr, a: Addr, size: nat)
      requires Inv(S(), multiset{}, {}) && o in blocks && blocks[o].count == 1 && o in ext
      requires a != NULL && a !in blocks
      modifies `blocks, `order, `ext, `held
      ensures Inv(S(), multiset{}, {})
      ensures blocks == (old(blocks) - {o})[a := old(blocks[o]).(size := size)]
      ensures order == Without(old(order), o) + [a] && ext == old(ext) - multiset{o} + multiset{a}
      ensures held == (old(held) - {o})[a := Held(old(held), o)]
    {
      hide Inv;
      MovedIsValid(S(), o, a, size);
      blocks := (blocks - {o})[a := blocks[o].(size := size)];
      order := Without(order, o) + [a];
      ext, held := ext - multiset{o} + multiset{a}, (held - {o})[a := Held(held, o)];
    }

    // One of several holders gives up its share, and gets a copy.
    method GiveUpShare(o: Addr, a: Addr, size: nat)
      requires Inv(S(), multiset{}, {}) && o in blocks && blocks[o].count != 1 && (blocks[o].count > 0 ==> o in ext)
      requires a != NULL && a !in blocks
      modifies `blocks, `order, `ext, `held
      ensures Inv(S(), multiset{}, {})
      ensures blocks == old(blocks)[o := GivenUp(old(blocks[o]))][a := Block(size, 1, false, false, [])]
      ensures order == old(order) + [a] && held == old(held)[a := []]
      ensures ext == (if old(blocks[o]).count > 0 then old(ext) - multiset{o} else old(ext)) + multiset{a}
    {
      hide Inv;
      CopiedIsValid(S(), o, a, size);
      ext := if blocks[o].count > 0 then ext - multiset{o} else ext;
      blocks := blocks[o := GivenUp(blocks[o])];
      AddNew(a, size);
    }

    method AddNew(a: Addr, size: nat)
      modifies `blocks, `order, `ext, `held
      ensures S() == WithNew(old(S()), a, Block(size, 1, false, false, []))
    {
      blocks := blocks[a := Block(size, 1, false, false, [])];
      order := order + [a];
      ext, held := ext + multiset{a}, held[a := []];
    }

    // mgn_mem_retain: the caller holds one more reference.
    method Retain(a: Addr) returns (r: Addr)
      requires Valid()
      modifies `blocks, `ext
      ensures Valid()
      ensures a !in old(blocks) ==> r == NULL && S() == old(S())
      ensures a in old(blocks) ==> r == a && ext == old(ext) + multiset{a}
      ensures a in old(blocks) ==> blocks == old(blocks)[a := old(blocks[a]).(count := old(blocks[a]).count + 1)]
    {
      hide Inv;
      if a !in blocks { return NULL; }
      blocks := blocks[a := blocks[a].(count := blocks[a].count + 1)];
      ext := ext + multiset{a};
      r := a;
      Retained(old(S()), S(), a);
    }

    // The caller stores a reference it holds in an object's memory, for the
    // object to own.
    method Own(x: Addr, y: Addr)
      requires Valid() && x in blocks && blocks[x].isObject && y in ext
      requires blocks[x].count == 0 ==> blocks[x].cb
      modifies `blocks, `ext, `held
      ensures Valid() && x in old(held) && S() == OwnedBy(old(S()), x, y)
      ensures blocks == old(blocks)[x := old(blocks[x]).(fields := old(blocks[x]).fields + [y])]
      ensures ext == old(ext) - multiset{y} && order == old(order)
    {
      hide Inv;
      AllHold(S(), x, y);
      StoreField(x, y);
      SameAddresses(old(S()), x, y);
    }

    // An object gives up one of the references it owns: a map or a list whose
    // item is replaced or taken out.
    method GiveBack(x: Addr, k: nat)
      requires Valid() && x in blocks && k < |blocks[x].fields|
      modifies `blocks, `order, `held
      ensures Valid() && ext == old(ext) && Survivors(WithoutField(old(S()), x, k), S())
      ensures Largest(WithoutField(old(S()), x, k), Zeros(old(S())), blocks.Keys)
      ensures x in blocks ==> blocks[x].fields == old(blocks[x]).fields[..k] + old(blocks[x]).fields[k + 1..]
      ensures forall b :: b in blocks ==>
        b in old(blocks) && blocks[b].size == old(blocks[b]).size
        && (b != x ==> blocks[b].fields == old(blocks[b]).fields)
      ensures
        var y := old(blocks[x]).fields[k];
        y in old(blocks) && old(blocks[y]).count > 0
        && if old(blocks[y]).count == 1 then y !in blocks
           else order == old(order) && y in blocks && blocks[y].count == old(blocks[y]).count - 1
    {
      hide Inv, Released, Survivors, Largest, NewZeros, Zeros;
      var b := blocks[x];
      var y := b.fields[k];
      FieldInHand(S(), x, k);
      blocks := blocks[x := b.(fields := Minus(b.fields, k))];
      held := held[x := Minus(b.fields, k)];
      ghost var s1 := S();
      ReleaseRef(y, blocks[y].isObject, true, multiset{}, {});
      Survived(s1, s1, S());
      SurvivorsUntouched(s1, S());
      LeftByRelease(s1, s1, S());
    }

    method StoreField(x: Addr, y: Addr)
      requires x in blocks && x in held && y in ext
      modifies `blocks, `ext, `held
      ensures S() == OwnedBy(old(S()), x, y)
    {
      blocks := blocks[x := WithField(blocks[x], y)];
      ext := ext - multiset{y};
      held := held[x := held[x] + [y]];
    }

    // mgn_mem_release and mgn_mem_release_w_cb by an outside holder.
    method Release(a: Addr, cb: bool)
      requires Valid() && (a in blocks && blocks[a].count > 0 ==> a in ext)
        && (a in blocks ==> cb || !blocks[a].isObject)
      modifies `blocks, `order, `ext, `held
      ensures Valid() && Survivors(old(S()), S())
      ensures a !in old(blocks) || old(blocks[a]).count == 0 ==> S() == old(S())
      ensures a in old(blocks) && old(blocks[a]).count > 0 ==> ext == old(ext) - multiset{a}
      ensures a in old(blocks) && old(blocks[a]).count > 1 ==>
        order == old(order)
        && blocks == old(blocks)[a := old(blocks[a]).(count := old(blocks[a]).count - 1, cb := cb)]
      ensures a in old(blocks) && old(blocks[a]).count == 1 ==> a !in blocks
      ensures Untouched(old(blocks), blocks)
      ensures forall b :: b in old(blocks) ==>
        (b in blocks <==> old(blocks[b].count) == 0 || Refs(S(), multiset{})[b] > 0)
      ensures Largest(old(S()).(ext := ext), Zeros(old(S())), blocks.Keys)
    {
      hide Inv, Refs, Owned, Released, Survivors, Largest, Zeros, KeepsCycles, NewZeros;
      ghost var s := S();
      if a in blocks && blocks[a].count > 0 {
        ext := ext - multiset{a};
      }
      TakenInHand(s, S(), a);
      ghost var s1 := S();
      ReleaseRef(a, cb, true, multiset{}, {});
      Survived(s, s1, S());
      SurvivorsUntouched(s, S());
      FreedWithLastReference(s, s1, S());
      LeftByRelease(s, s1, S());
    }

    // mgn_mem_autorelease and mgn_mem_autorelease_w_cb: nothing is freed yet.
    method Autorelease(a: Addr, cb: bool)
      requires Valid() && (a in blocks && blocks[a].count > 0 ==> a in ext)
        && (a in blocks ==> cb || !blocks[a].isObject)
      modifies `blocks, `ext
      ensures Valid()
      ensures a !in old(blocks) || old(blocks[a]).count == 0 ==> S() == old(S())
      ensures a in old(blocks) && old(blocks[a]).count > 0 ==>
        ext == old(ext) - multiset{a}
        && blocks == old(blocks)[a := old(blocks[a]).(count := old(blocks[a]).count - 1, cb := cb)]
    {
      hide Inv, Released;
      if a !in blocks { return; }
      if blocks[a].count == 0 { return; }
      ghost var s := S();
      ext := ext - multiset{a};
      TakenInHand(s, S(), a);
      ghost var s1 := S();
      blocks := blocks[a := blocks[a].(count := blocks[a].count - 1, cb := cb)];
      OneLess(s1, S(), a, cb, multiset{}, {});
    }

    // ----- The sweep

    // The first sixteen unused blocks, in the order of the table.
    method CollectUnused() returns (batch: seq<Addr>)
      requires Valid()
      ensures |batch| <= 16 && NoDup(batch) && forall a :: a in batch ==> a in blocks && blocks[a].count == 0
      ensures |batch| < 16 ==> forall a :: a in blocks && blocks[a].count == 0 ==> a in batch
      ensures FirstOf(blocks, order, batch)
    {
      batch := [];
      OrderIsOfBlocks(S());
      hide Inv, Valid, UnusedAmong;
      for i := 0 to |order|
        invariant |batch| < SWEEP_BATCH && UnusedAmong(blocks, order[..i], batch)
      {
        var a := order[i];
        NextUnused(blocks, order, i, batch);
        if blocks[a].count == 0 {
          batch := batch + [a];
          if |batch| >= SWEEP_BATCH {
            AreUnused(blocks, order[..i + 1], batch);
            AreFirst(S(), i + 1, batch);
            return;
          }
        }
      }
      assert order[..|order|] == order;
      AreUnused(blocks, order, batch);
      AreFirst(S(), |order|, batch);
    }

    method FreeBatch(batch: seq<Addr>)
      requires Valid() && NoDup(batch) && forall a :: a in batch ==> a in blocks && blocks[a].count == 0
      modifies `blocks, `order, `held
      ensures Valid() && Survivors(old(S()), S()) && NewZeros(old(blocks), blocks, {})
      ensures blocks.Keys <= old(blocks.Keys) && forall a :: a in batch ==> a !in blocks
    {
      ghost var s0 := S();
      AllSurvive(s0);
      hide Valid, Survivors, NewZeros;
      for i := 0 to |batch|
        invariant Valid() && Survivors(s0, S()) && NewZeros(s0.blocks, blocks, {}) && blocks.Keys <= s0.blocks.Keys
        invariant forall k :: 0 <= k < i ==> batch[k] !in blocks
        invariant forall k :: i <= k < |batch| ==> batch[k] in blocks && blocks[batch[k]].count == 0
      {
        ghost var s := S();
        FreeUnused(batch[i]);
        SurvivorsTwice(s0, s, S());
        ZerosTwice(s0.blocks, s.blocks, blocks);
      }
    }

    method FreeUnused(a: Addr)
      requires Valid() && a in blocks && blocks[a].count == 0
      modifies `blocks, `order, `held
      ensures Valid() && Survivors(old(S()), S()) && NewZeros(old(blocks), blocks, {})
      ensures a !in blocks && blocks.Keys <= old(blocks.Keys)
      ensures forall b :: b in old(blocks) && b != a && old(blocks[b]).count == 0 ==>
        b in blocks && blocks[b].count == 0
    {
      hide Inv, Survivors, Destroyed;
      FreeBlock(a, multiset{}, {});
      DestroyedSurvivors(old(S()), S(), a);
    }

    // mgn_mem_release_unused
    method ReleaseUnused()
      requires Valid()
      modifies `blocks, `order, `held
      ensures Valid() && Survivors(old(S()), S()) && (forall b :: b in blocks ==> blocks[b].count > 0)
      ensures Largest(old(S()), {}, blocks.Keys) && Untouched(old(blocks), blocks) && ext == old(ext)
    {
      ghost var s0 := S();
      AllSurvive(s0);
      hide Survivors, Inv, Largest;
      var full := true;
      while full
        invariant Valid() && Survivors(s0, S()) && (!full ==> forall b :: b in blocks ==> blocks[b].count > 0)
        decreases blocks.Keys, full
      {
        full := SweepRound(s0);
      }
      SurvivorsUntouched(s0, S());
      LargestIsLeft(s0, S(), {});
    }

    // One round: a full one frees sixteen blocks, and no block is new.
    method SweepRound(ghost s0: State) returns (full: bool)
      requires Valid() && Survivors(s0, S())
      modifies `blocks, `order, `held
      ensures Valid() && Survivors(s0, S())
      ensures full ==> blocks.Keys < old(blocks.Keys) && |blocks| + 16 <= |old(blocks)|
      ensures !full ==> blocks.Keys <= old(blocks.Keys) && forall b :: b in blocks ==> blocks[b].count > 0
    {
      hide Inv, Survivors;
      ghost var s := S();
      var batch := CollectUnused();
      FreeBatch(batch);
      SurvivorsTwice(s0, s, S());
      BatchIsGone(s.blocks, blocks, batch);
      full := |batch| >= SWEEP_BATCH;
    }
  }

  lemma OrderIsOfBlocks(s: State)
    requires Shaped(s, {})
    ensures NoDup(s.order) && (forall i :: 0 <= i < |s.order| ==> s.order[i] in s.blocks)
    ensures UnusedAmong(s.blocks, s.order[..0], []) && forall a :: a in s.blocks ==> a in s.order
  {}

  // The blocks of s without references, each once.
  ghost predicate UnusedAmong(blocks: Blocks, s: seq<Addr>, batch: seq<Addr>)
  {
    NoDup(batch) && (forall a :: a in batch ==> a in s && a in blocks && blocks[a].count == 0)
    && forall a :: a in s && a in blocks && blocks[a].count == 0 ==> a in batch
  }

  // No block without references comes before one of the batch and is not in it.
  ghost predicate FirstOf(blocks: Blocks, order: seq<Addr>, batch: seq<Addr>)
  {
    forall i, j :: 0 <= i < j < |order| && order[j] in batch && order[i] in blocks && blocks[order[i]].count == 0 ==>
      order[i] in batch
  }

  lemma AreFirst(s: State, n: nat, batch: seq<Addr>)
    requires Inv(s, multiset{}, {}) && n <= |s.order| && UnusedAmong(s.blocks, s.order[..n], batch)
    ensures FirstOf(s.blocks, s.order, batch)
  {
    hide Balanced;
    forall i, j | 0 <= i < j < |s.order| && s.order[j] in batch && s.order[i] in s.blocks
                  && s.blocks[s.order[i]].count == 0
      ensures s.order[i] in batch {
      var k :| 0 <= k < n && s.order[..n][k] == s.order[j];
      assert s.order[k] == s.order[j];
      assert k == j;
      assert s.order[i] == s.order[..n][i];
    }
  }

  lemma NextUnused(blocks: Blocks, order: seq<Addr>, i: nat, batch: seq<Addr>)
    requires NoDup(order) && i < |order| && order[i] in blocks && UnusedAmong(blocks, order[..i], batch)
    ensures UnusedAmong(blocks, order[..i + 1], if blocks[order[i]].count == 0 then batch + [order[i]] else batch)
  {
    assert order[i] !in order[..i];
    assert order[..i + 1] == order[..i] + [order[i]];
  }

  lemma AreUnused(blocks: Blocks, s: seq<Addr>, batch: seq<Addr>)
    requires UnusedAmong(blocks, s, batch)
    ensures NoDup(batch) && forall a :: a in batch ==> a in blocks && blocks[a].count == 0
    ensures (forall a :: a in blocks ==> a in s) ==> forall a :: a in blocks && blocks[a].count == 0 ==> a in batch
  {}

  // ----- What is left

  // Memory and what it owns stay; counts do not rise.
  ghost predicate Untouched(b: Blocks, b': Blocks)
  {
    forall a :: a in b' ==>
      a in b && b'[a].size == b[a].size && b'[a].isObject == b[a].isObject && b'[a].fields == b[a].fields
      && b'[a].count <= b[a].count
  }

  lemma SurvivorsUntouched(s: State, s': State)
    requires Survivors(s, s')
    ensures Untouched(s.blocks, s'.blocks)
  {
    hide KeepsCycles;
    forall a | a in s'.blocks ensures SameBlock(s, s', a) {}
  }

  lemma AllSurvive(s: State)
    ensures Survivors(s, s) && NewZeros(s.blocks, s.blocks, {})
  {}

  lemma SurvivorsTwice(s: State, s1: State, s2: State)
    requires Survivors(s, s1) && Survivors(s1, s2)
    ensures Survivors(s, s2)
  {
    forall b | b in s2.blocks ensures SameBlock(s, s2, b) { assert SameBlock(s1, s2, b) && SameBlock(s, s1, b); }
  }

  lemma DestroyedSurvivors(s: State, s': State, a: Addr)
    requires Destroyed(s, s', a) && a !in s'.blocks
    ensures Survivors(s, s') && s'.blocks.Keys <= s.blocks.Keys
    ensures forall b :: b in s.blocks && b != a && s.blocks[b].count == 0 ==> b in s'.blocks && s'.blocks[b].count == 0
  {}

  lemma BatchIsGone(b: Blocks, b': Blocks, batch: seq<Addr>)
    requires NoDup(batch) && b'.Keys <= b.Keys && forall a :: a in batch ==> a in b && a !in b'
    ensures |b'| + |batch| <= |b| && (batch != [] ==> b'.Keys < b.Keys)
  {
    var gone := Elements(batch);
    BatchSize(batch);
    assert b'.Keys !! gone && b'.Keys + gone <= b.Keys;
    assert |b'.Keys + gone| == |b'.Keys| + |gone|;
    Subset(b'.Keys + gone, b.Keys);
    if batch != [] { assert batch[0] in b.Keys && batch[0] !in b'.Keys; }
  }

  lemma Subset(s: set<Addr>, t: set<Addr>)
    requires s <= t
    ensures |s| <= |t|
  {
    assert t == s + (t - s);
  }

  ghost function Elements(s: seq<Addr>): set<Addr> { set a | a in s }

  lemma {:induction false} BatchSize(batch: seq<Addr>)
    requires NoDup(batch)
    ensures |Elements(batch)| == |batch|
  {
    if batch != [] {
      var rest := batch[1..];
      BatchSize(rest);
      assert batch == [batch[0]] + rest;
      assert Elements(batch) == {batch[0]} + Elements(rest);
      assert batch[0] !in rest;
    }
  }

  // ----- Steps of the interface

  // A new block, held by the caller.
  ghost function WithNew(s: State, a: Addr, b: Block): State
  {
    State(s.blocks[a := b], s.order + [a], s.ext + multiset{a}, s.held[a := []])
  }

  function GivenUp(b: Block): Block { b.(count := if b.count > 0 then b.count - 1 else 0) }

  ghost function Moved(s: State, o: Addr, a: Addr, size: nat): State
    requires o in s.blocks
  {
    State((s.blocks - {o})[a := s.blocks[o].(size := size)], Without(s.order, o) + [a],
          s.ext - multiset{o} + multiset{a}, (s.held - {o})[a := Held(s.held, o)])
  }

  ghost function Copied(s: State, o: Addr, a: Addr, size: nat): State
    requires o in s.blocks
  {
    var ext := if s.blocks[o].count > 0 then s.ext - multiset{o} else s.ext;
    WithNew(s.(blocks := s.blocks[o := GivenUp(s.blocks[o])], ext := ext), a, Block(size, 1, false, false, []))
  }

  lemma NullIsNoBlock(s: State)
    requires Inv(s, multiset{}, {})
    ensures NULL !in s.blocks
  {}

  lemma WithNewIsValid(s: State, a: Addr, size: nat)
    requires Inv(s, multiset{}, {}) && a != NULL && a !in s.blocks
    ensures Inv(WithNew(s, a, Block(size, 1, false, false, [])), multiset{}, {})
  {
    hide Inv;
    var s' := WithNew(s, a, Block(size, 1, false, false, []));
    assert s'.blocks.Keys == s.blocks.Keys + {a};
    Allocated(s, s', a);
  }

  lemma CopiedIsValid(s: State, o: Addr, a: Addr, size: nat)
    requires Inv(s, multiset{}, {}) && o in s.blocks && s.blocks[o].count != 1 && (s.blocks[o].count > 0 ==> o in s.ext)
    requires a != NULL && a !in s.blocks
    ensures Inv(Copied(s, o, a, size), multiset{}, {})
  {
    hide Inv, Released, Shaped, Balanced;
    if s.blocks[o].count > 0 {
      var s1 := s.(ext := s.ext - multiset{o});
      TakenInHand(s, s1, o);
      var s2 := s1.(blocks := s1.blocks[o := s1.blocks[o].(count := s1.blocks[o].count - 1, cb := s1.blocks[o].cb)]);
      OneLess(s1, s2, o, s1.blocks[o].cb, multiset{}, {});
      assert s2 == s.(blocks := s.blocks[o := GivenUp(s.blocks[o])], ext := s.ext - multiset{o});
      WithNewIsValid(s2, a, size);
    } else {
      assert s.blocks[o := GivenUp(s.blocks[o])] == s.blocks;
      WithNewIsValid(s, a, size);
    }
  }

  lemma MovedIsValid(s: State, o: Addr, a: Addr, size: nat)
    requires Inv(s, multiset{}, {}) && o in s.blocks && s.blocks[o].count == 1 && o in s.ext
    requires a != NULL && a !in s.blocks
    ensures Inv(Moved(s, o, a, size), multiset{}, {})
  {
    hide Shaped, Refs, Balanced;
    MovedShape(s, o, a, size);
    MovedRefs(s, o, a, size);
    MovedBalance(s, Moved(s, o, a, size), o, a);
  }

  lemma MovedBalance(s: State, s': State, o: Addr, a: Addr)
    requires Balanced(s, multiset{}) && o in s.blocks && s.blocks[o].count == 1 && a !in s.blocks
    requires Refs(s', multiset{}) + multiset{o} == Refs(s, multiset{}) + multiset{a}
    requires s'.blocks.Keys == s.blocks.Keys - {o} + {a} && s'.blocks[a].count == 1
    requires forall b :: b in s'.blocks && b != a ==> s'.blocks[b].count == s.blocks[b].count
    ensures Balanced(s', multiset{})
  {
    hide Refs;
    assert a !in Refs(s, multiset{});
    forall b ensures Refs(s', multiset{})[b] == if b == a then 1 else if b == o then 0 else Refs(s, multiset{})[b] {
      Exchanged(Refs(s, multiset{}), Refs(s', multiset{}), o, a, b);
    }
  }

  lemma Exchanged(r: multiset<Addr>, r': multiset<Addr>, o: Addr, a: Addr, b: Addr)
    requires r' + multiset{o} == r + multiset{a} && o != a
    ensures r'[b] + (if b == o then 1 else 0) == r[b] + (if b == a then 1 else 0)
  {
    assert (r' + multiset{o})[b] == (r + multiset{a})[b];
  }

  // The one reference to o becomes one to a; what o owns, a owns.
  lemma MovedRefs(s: State, o: Addr, a: Addr, size: nat)
    requires Shaped(s, {}) && o in s.blocks && o in s.ext && a !in s.blocks
    ensures Refs(Moved(s, o, a, size), multiset{}) + multiset{o} == Refs(s, multiset{}) + multiset{a}
  {
    var rest, held' := Without(s.order, o), Moved(s, o, a, size).held;
    OwnedSplit(s.order, s.held, o);
    OwnedElsewhere(rest, s.held, held');
    OwnedSnoc(rest, held', a);
    hide Owned, Without, Shaped;
    OneForOne(s.ext, Owned(s.order, s.held), o, a);
  }

  lemma OneForOne(e: multiset<Addr>, m: multiset<Addr>, o: Addr, a: Addr)
    requires o in e
    ensures (e - multiset{o} + multiset{a}) + m + multiset{} + multiset{o} == e + m + multiset{} + multiset{a}
  {}

  lemma MovedShape(s: State, o: Addr, a: Addr, size: nat)
    requires Shaped(s, {}) && o in s.blocks && s.blocks[o].count == 1 && a != NULL && a !in s.blocks
    ensures Shaped(Moved(s, o, a, size), {})
  {
    hide NoDup, Without;
    var s' := Moved(s, o, a, size);
    MovedOrder(s.order, o, a);
    assert s'.held.Keys == s.held.Keys - {o} + {a} && s'.blocks.Keys == s.blocks.Keys - {o} + {a};
    assert s'.blocks[a].fields == s.blocks[o].fields && s'.held[a] == s.held[o];
  }

  lemma MovedOrder(order: seq<Addr>, o: Addr, a: Addr)
    requires NoDup(order) && a !in order
    ensures NoDup(Without(order, o) + [a])
    ensures forall b :: b in Without(order, o) + [a] <==> b == a || (b in order && b != o)
  {
    WithoutNoDup(order, o);
    hide Without;
    assert forall b :: b in Without(order, o) + [a] <==> b == a || b in Without(order, o);
  }

  function WithField(b: Block, y: Addr): Block { b.(fields := b.fields + [y]) }

  ghost function OwnedBy(s: State, x: Addr, y: Addr): State
    requires x in s.blocks && x in s.held
  {
    State(s.blocks[x := WithField(s.blocks[x], y)], s.order, s.ext - multiset{y}, s.held[x := s.held[x] + [y]])
  }

  lemma Allocated(s: State, s': State, a: Addr)
    requires Inv(s, multiset{}, {}) && a != NULL && a !in s.blocks && s'.blocks.Keys == s.blocks.Keys + {a}
    requires (forall b :: b in s.blocks ==> s'.blocks[b] == s.blocks[b])
    requires s'.blocks[a].count == 1 && s'.blocks[a].fields == []
    requires s'.order == s.order + [a] && s'.ext == s.ext + multiset{a} && s'.held == s.held[a := []]
    ensures Inv(s', multiset{}, {})
  {
    AllocatedRefs(s, s', a);
    AllocatedShape(s, s', a);
    hide Refs, Owned, Shaped;
    OneMoreRef(s, s', a);
  }

  lemma AllocatedRefs(s: State, s': State, a: Addr)
    requires Shaped(s, {}) && a !in s.blocks
    requires s'.order == s.order + [a] && s'.ext == s.ext + multiset{a} && s'.held == s.held[a := []]
    ensures Refs(s', multiset{}) == Refs(s, multiset{}) + multiset{a}
  {
    OwnedElsewhere(s.order, s.held, s'.held);
    OwnedSnoc(s.order, s'.held, a);
    var o, o' := Owned(s.order, s.held), Owned(s'.order, s'.held);
    hide Owned, Shaped;
    assert o' == o;
    assert (s.ext + multiset{a}) + o + multiset{} == (s.ext + o + multiset{}) + multiset{a};
  }

  lemma AllocatedShape(s: State, s': State, a: Addr)
    requires Shaped(s, {}) && a != NULL && a !in s.blocks && s'.blocks.Keys == s.blocks.Keys + {a}
    requires (forall b :: b in s.blocks ==> s'.blocks[b] == s.blocks[b])
    requires s'.blocks[a].count == 1 && s'.blocks[a].fields == []
    requires s'.order == s.order + [a] && s'.held == s.held[a := []]
    ensures Shaped(s', {})
  {
    assert NoDup(s'.order);
    hide NoDup;
    assert s'.held.Keys == s.held.Keys + {a};
  }

  // One more reference to a, and its count one higher.
  lemma OneMoreRef(s: State, s': State, a: Addr)
    requires Balanced(s, multiset{}) && Refs(s', multiset{}) == Refs(s, multiset{}) + multiset{a}
    requires s'.blocks.Keys == s.blocks.Keys + {a}
    requires forall b :: b in s.blocks && b != a ==> s'.blocks[b].count == s.blocks[b].count
    requires s'.blocks[a].count == 1 + if a in s.blocks then s.blocks[a].count else 0
    ensures Balanced(s', multiset{})
  {
    hide Refs;
    assert a !in s.blocks ==> a !in Refs(s, multiset{});
  }

  lemma Retained(s: State, s': State, a: Addr)
    requires Inv(s, multiset{}, {}) && a in s.blocks
    requires s' == s.(ext := s.ext + multiset{a}, blocks := s.blocks[a := s.blocks[a].(count := s.blocks[a].count + 1)])
    ensures Inv(s', multiset{}, {})
  {
    hide Shaped, Owned;
    RetainedShape(s, s', a);
    assert Refs(s', multiset{}) == Refs(s, multiset{}) + multiset{a};
    hide Refs, Balanced;
    assert s'.blocks.Keys == s.blocks.Keys;
    OneMoreRef(s, s', a);
  }

  lemma RetainedShape(s: State, s': State, a: Addr)
    requires Shaped(s, {}) && a in s.blocks
    requires s' == s.(ext := s.ext + multiset{a}, blocks := s.blocks[a := s.blocks[a].(count := s.blocks[a].count + 1)])
    ensures Shaped(s', {})
  {
    hide NoDup;
    assert s'.blocks.Keys == s.blocks.Keys;
  }

  lemma HandedOver(s: State, s': State, x: Addr, y: Addr, b: Block, hs: seq<Addr>)
    requires Inv(s, multiset{}, {}) && x in s.blocks && s.blocks[x].isObject && y in s.ext
    requires s.blocks[x].count == 0 ==> s.blocks[x].cb
    requires b == s.blocks[x].(fields := s.blocks[x].fields + [y]) && x in s.held && hs == s.held[x] + [y]
    requires s' == State(s.blocks[x := b], s.order, s.ext - multiset{y}, s.held[x := hs])
    ensures Inv(s', multiset{}, {})
  {
    hide Owned, Refs, Shaped;
    HandedOverRefs(s, s', x, y);
    HandedOverShape(s, s', x, y, b, hs);
    assert s'.blocks.Keys == s.blocks.Keys;
  }

  lemma HandedOverShape(s: State, s': State, x: Addr, y: Addr, b: Block, hs: seq<Addr>)
    requires Shaped(s, {}) && x in s.blocks && s.blocks[x].isObject && (s.blocks[x].count == 0 ==> s.blocks[x].cb)
    requires b == s.blocks[x].(fields := s.blocks[x].fields + [y]) && x in s.held && hs == s.held[x] + [y]
    requires s'.blocks == s.blocks[x := b] && s'.order == s.order && s'.held == s.held[x := hs]
    ensures Shaped(s', {})
  {
    hide NoDup;
    assert s'.blocks.Keys == s.blocks.Keys && s'.held.Keys == s.held.Keys;
    assert hs == b.fields;
  }

  lemma HandedOverRefs(s: State, s': State, x: Addr, y: Addr)
    requires Shaped(s, {}) && x in s.blocks && y in s.ext
    requires s'.order == s.order && s'.ext == s.ext - multiset{y} && s'.held == s.held[x := s.held[x] + [y]]
    ensures Refs(s', multiset{}) == Refs(s, multiset{})
  {
    OwnedUpdate(s.order, s.held, x, s.held[x] + [y]);
    assert multiset(s.held[x] + [y]) == multiset(s.held[x]) + multiset{y};
    SameRefs(s.ext, Owned(s.order, s.held), Owned(s'.order, s'.held), multiset(s.held[x]), y);
    hide Owned;
  }

  function Minus(s: seq<Addr>, k: nat): seq<Addr>
    requires k < |s|
  {
    s[..k] + s[k + 1..]
  }

  ghost function WithoutField(s: State, x: Addr, k: nat): State
    requires x in s.blocks && k < |s.blocks[x].fields|
  {
    var rest := Minus(s.blocks[x].fields, k);
    s.(blocks := s.blocks[x := s.blocks[x].(fields := rest)], held := s.held[x := rest])
  }

  // The reference an object gives up is in hand.
  lemma FieldInHand(s: State, x: Addr, k: nat)
    requires Inv(s, multiset{}, {}) && x in s.blocks && k < |s.blocks[x].fields|
    ensures var y, s' := s.blocks[x].fields[k], WithoutField(s, x, k);
      Inv(s', multiset{} + multiset{y}, {}) && y in s'.blocks && s'.blocks[y].count > 0 && Zeros(s') == Zeros(s)
  {
    hide Shaped, Refs, Balanced, Minus;
    var y, s' := s.blocks[x].fields[k], WithoutField(s, x, k);
    FewerFields(s, x, k);
    FieldRefs(s, x, k);
    FieldBalance(s, s', y);
  }

  lemma FieldBalance(s: State, s': State, y: Addr)
    requires Balanced(s, multiset{}) && Refs(s', multiset{} + multiset{y}) == Refs(s, multiset{})
    requires s'.blocks.Keys == s.blocks.Keys && forall b :: b in s.blocks ==> s'.blocks[b].count == s.blocks[b].count
    ensures Balanced(s', multiset{} + multiset{y}) && y in s'.blocks && s'.blocks[y].count > 0
  {
    InRefs(s', y);
    hide Refs;
    assert y in Refs(s, multiset{});
  }

  lemma InRefs(s: State, y: Addr)
    ensures Refs(s, multiset{} + multiset{y})[y] > 0
  {}

  lemma FewerFields(s: State, x: Addr, k: nat)
    requires Shaped(s, {}) && x in s.blocks && k < |s.blocks[x].fields|
    ensures Shaped(WithoutField(s, x, k), {}) && WithoutField(s, x, k).blocks.Keys == s.blocks.Keys
    ensures Zeros(WithoutField(s, x, k)) == Zeros(s)
  {
    hide NoDup, Minus;
    var s' := WithoutField(s, x, k);
    assert s'.blocks.Keys == s.blocks.Keys && s'.held.Keys == s.held.Keys;
  }

  lemma FieldRefs(s: State, x: Addr, k: nat)
    requires Shaped(s, {}) && x in s.blocks && k < |s.blocks[x].fields|
    ensures Refs(WithoutField(s, x, k), multiset{} + multiset{s.blocks[x].fields[k]}) == Refs(s, multiset{})
  {
    var fs := s.blocks[x].fields;
    assert fs == fs[..k] + ([fs[k]] + fs[k + 1..]);
    assert multiset(fs) == multiset{fs[k]} + multiset(Minus(fs, k));
    hide Minus;
    OwnedUpdate(s.order, s.held, x, Minus(fs, k));
    var o, o' := Owned(s.order, s.held), Owned(s.order, s.held[x := Minus(fs, k)]);
    MoveOne(s.ext, o, o', multiset(Minus(fs, k)), multiset{}, fs[k]);
    hide Owned, Shaped;
  }

  lemma SameAddresses(s: State, x: Addr, y: Addr)
    requires x in s.blocks && x in s.held
    ensures OwnedBy(s, x, y).blocks.Keys == s.blocks.Keys
  {}

  lemma AllHold(s: State, x: Addr, y: Addr)
    requires Inv(s, multiset{}, {}) && x in s.blocks && s.blocks[x].isObject && y in s.ext
    requires s.blocks[x].count == 0 ==> s.blocks[x].cb
    ensures x in s.held && Inv(OwnedBy(s, x, y), multiset{}, {})
  {
    HandedOver(s, OwnedBy(s, x, y), x, y, WithField(s.blocks[x], y), s.held[x] + [y]);
  }

  lemma SameRefs(e: multiset<Addr>, o: multiset<Addr>, o': multiset<Addr>, m: multiset<Addr>, y: Addr)
    requires y in e && o' + m == o + (m + multiset{y})
    ensures (e - multiset{y}) + o' == e + o
  {
    forall x ensures ((e - multiset{y}) + o')[x] == (e + o)[x] {
      assert (o' + m)[x] == (o + (m + multiset{y}))[x];
    }
  }

  // An outside reference is taken in hand.
  lemma TakenInHand(s: State, s': State, a: Addr)
    requires Inv(s, multiset{}, {})
    requires a in s.blocks && s.blocks[a].count > 0 ==> a in s.ext
    requires s' == if a in s.blocks && s.blocks[a].count > 0 then s.(ext := s.ext - multiset{a}) else s
    ensures Inv(s', if a in s.blocks && s.blocks[a].count > 0 then multiset{} + multiset{a} else multiset{}, {})
  {
    hide Shaped, Owned;
    if a in s.blocks && s.blocks[a].count > 0 {
      assert Refs(s', multiset{} + multiset{a}) == Refs(s, multiset{});
      hide Refs;
      assert Balanced(s', multiset{} + multiset{a});
      SameShape(s, s');
    }
  }

  lemma SameShape(s: State, s': State)
    requires Shaped(s, {}) && s'.blocks == s.blocks && s'.order == s.order && s'.held == s.held
    ensures Shaped(s', {})
  {}

  lemma Survived(s: State, s1: State, s2: State)
    requires s1 == s.(ext := s1.ext) && Released(s1, s2)
    ensures Survivors(s, s2) && s2.blocks.Keys <= s.blocks.Keys
  {
    forall b | b in s2.blocks ensures SameBlock(s, s2, b) { assert SameBlock(s1, s2, b); }
  }

  lemma LeftByRelease(s: State, s1: State, s2: State)
    requires s1 == s.(ext := s1.ext) && Released(s1, s2) && Inv(s2, multiset{}, {}) && NewZeros(s.blocks, s2.blocks, {})
    ensures Largest(s.(ext := s2.ext), Zeros(s), s2.blocks.Keys)
  {
    hide KeepsCycles, Inv;
    Survived(s1, s1, s2);
    hide Survivors;
    LargestIsLeft(s1, s2, Zeros(s));
  }

  // A block is freed exactly when its last reference goes.
  lemma FreedWithLastReference(s: State, s1: State, s2: State)
    requires s1 == s.(ext := s1.ext) && Released(s1, s2) && Inv(s2, multiset{}, {}) && NewZeros(s.blocks, s2.blocks, {})
    ensures forall b :: b in s.blocks ==>
      (b in s2.blocks <==> s.blocks[b].count == 0 || Refs(s2, multiset{})[b] > 0)
  {
    hide Refs, Owned;
  }

  // ----- Releases

  lemma Uncons(s: seq<Addr>)
    requires s != []
    ensures s == [s[0]] + s[1..]
  {}

  // The callback of a is running, and has rest still to release.
  ghost predicate Running(s0: State, s: State, a: Addr, rest: seq<Addr>, extra: multiset<Addr>, busy: set<Addr>)
  {
    Inv(s, extra, busy + {a}) && a in s.blocks && s.blocks[a].count == 0 && Held(s.held, a) == rest
    && Destroyed(s0, s, a) && NewZeros(s0.blocks, s.blocks, {})
  }

  // Blocks without references are old ones, or among those given.
  ghost predicate NewZeros(b: Blocks, b': Blocks, zs: set<Addr>)
  {
    forall x :: x in b' && b'[x].count == 0 ==> x in zs || (x in b && b[x].count == 0)
  }

  lemma DestroyedShrinks(s: State, s': State, a: Addr, extra: multiset<Addr>)
    requires Destroyed(s, s', a)
    ensures Size(s', extra) <= Size(s, extra)
  {
    NotMoreRefs(s, s', extra);
  }

  lemma ZerosTwice(b: Blocks, b1: Blocks, b2: Blocks)
    requires NewZeros(b, b1, {}) && NewZeros(b1, b2, {})
    ensures NewZeros(b, b2, {})
  {}

  lemma NoCallbackNeeded(s: State, a: Addr, extra: multiset<Addr>, busy: set<Addr>)
    requires Inv(s, extra, busy) && a in s.blocks && s.blocks[a].count == 0 && a !in busy
    ensures Inv(s, extra, busy + {a}) && (!s.blocks[a].cb ==> Held(s.held, a) == []) && Destroyed(s, s, a)
    ensures NewZeros(s.blocks, s.blocks, {})
  {}

  lemma CallbackDone(s0: State, s: State, a: Addr, extra: multiset<Addr>, busy: set<Addr>)
    requires Running(s0, s, a, [], extra, busy)
    ensures Inv(s, extra, busy + {a}) && a in s.blocks && Held(s.held, a) == [] && Destroyed(s0, s, a)
    ensures NewZeros(s0.blocks, s.blocks, {})
  {}

  lemma ZerosWithout(b: Blocks, b': Blocks, a: Addr)
    requires NewZeros(b, b', {})
    ensures NewZeros(b, b' - {a}, {})
  {}

  lemma StartRunning(s: State, a: Addr, extra: multiset<Addr>, busy: set<Addr>)
    requires Inv(s, extra, busy) && a in s.blocks && a !in busy && s.blocks[a].count == 0
    ensures Running(s, s, a, s.blocks[a].fields, extra, busy)
    ensures s.blocks[a].fields[0..] == s.blocks[a].fields
  {
    BeginDestroy(s, a, extra, busy);
  }

  lemma ZeroStays(s: State, s': State, a: Addr)
    requires Released(s, s') && a in s.blocks && s.blocks[a].count == 0
    ensures a in s'.blocks && s'.blocks[a].count == 0 && Held(s'.held, a) == Held(s.held, a)
  {
    assert SameBlock(s, s', a);
  }

  lemma ReleasedAndFreed(s: State, s1: State, s2: State, a: Addr)
    requires Released(s, s1) && Destroyed(s1, s2, a) && a !in s2.blocks && a in s.blocks && s.blocks[a].count > 0
    ensures Released(s, s2)
  {
    forall b | b in s2.blocks ensures b in s.blocks && SameBlock(s, s2, b) {
      assert SameBlock(s1, s2, b) && SameBlock(s, s1, b);
    }
  }

  lemma DestroyedTwice(s: State, s1: State, s2: State, a: Addr)
    requires Destroyed(s, s1, a) && Destroyed(s1, s2, a)
    ensures Destroyed(s, s2, a)
  {
    forall b | b in s2.blocks && b != a ensures b in s.blocks && SameBlock(s, s2, b) {
      assert SameBlock(s1, s2, b) && SameBlock(s, s1, b);
    }
  }

  lemma DestroyedThenReleased(s: State, s1: State, s2: State, a: Addr)
    requires a in s1.held && a in s.blocks && s1 == s.(held := s.held[a := s1.held[a]]) && KeepsCycles(s, s1)
    requires Owned(s1.order, s1.held) <= Owned(s.order, s.held) && Released(s1, s2)
    ensures Destroyed(s, s2, a)
  {
    forall b | b in s2.blocks && b != a ensures b in s.blocks && SameBlock(s, s2, b) {
      assert SameBlock(s1, s2, b);
    }
  }
}
