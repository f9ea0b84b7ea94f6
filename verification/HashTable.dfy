// The hash table: an index of bucket chains over a list of all items in
// application order. Its validity is what HASH_FSCK checks, and more.

module HashTables {
  import opened Bits
  import opened HashLists

  const HASH_INITIAL_NUM_BUCKETS: nat := 32
  const HASH_INITIAL_NUM_BUCKETS_LOG2: nat := 5
  const HASH_BKT_CAPACITY_THRESH: nat := 10

  datatype Bucket<T> = Bucket(hhHead: Handle?<T>, count: nat, expandMult: nat)

  // The bucket of a hash value among n.
  function Index(hashv: nat, n: nat): (b: nat)
    requires n > 0
    ensures b < n
  {
    hashv % n
  }

  // HASH_TO_BKT
  method ToBucket(hashv: nat, n: nat, ghost k: nat) returns (b: nat)
    requires n == Pow2(k)
    ensures b == Index(hashv, n)
  {
    AndLowMask(hashv, k);
    b := BitAnd(hashv, n - 1);
  }

  ghost predicate BucketOk<T(!new)>(bk: Bucket<T>, c: seq<Handle<T>>, all: seq<Handle<T>>)
    reads all`hhNext, all`hhPrev
  {
    (forall i :: 0 <= i < |c| ==> c[i] in all) && Chained(c) && bk.hhHead == At(c, 0) && bk.count == |c|
  }

  // Every bucket holds its chain; all items in chains are among all.
  ghost predicate BucketsOk<T(!new)>(bs: seq<Bucket<T>>, cs: seq<seq<Handle<T>>>, all: seq<Handle<T>>)
    reads all`hhNext, all`hhPrev
  {
    |bs| == |cs|
    && forall b :: 0 <= b < |cs| ==> BucketOk(bs[b], cs[b], all)
  }

  // Items are in the chains of their indices, and only there.
  ghost predicate InPlace<T(!new)>(cs: seq<seq<Handle<T>>>, all: seq<Handle<T>>)
    reads all`hashv
  {
    |cs| > 0 && forall b, h :: 0 <= b < |cs| && h in cs[b] ==> h in all && Index(h.hashv, |cs|) == b
  }

  ghost predicate Placed<T(!new)>(cs: seq<seq<Handle<T>>>, all: seq<Handle<T>>)
    reads all`hashv
  {
    InPlace(cs, all) && forall h :: h in all ==> h in cs[Index(h.hashv, |cs|)]
  }

  // Hash values are those of the keys, and no key occurs twice.
  ghost predicate Keys<T(!new)>(s: seq<Handle<T>>, hash: seq<int> -> nat)
    reads s`key, s`hashv
  {
    (forall h :: h in s ==> h.hashv == hash(h.key)) && forall i, j :: 0 <= i < j < |s| ==> s[i].key != s[j].key
  }

  // What the key finds.
  ghost predicate Finds<T(!new)>(s: seq<Handle<T>>, key: seq<int>, out: Handle?<T>)
    reads s`key
  {
    if out == null then forall h :: h in s ==> h.key != key else out in s && out.key == key
  }

  lemma NoneSeen<T(!new)>(c: seq<Handle<T>>, key: seq<int>)
    ensures Finds(c[..0], key, null) && (c == [] ==> Finds(c, key, null))
  {}

  // One more item looked at: found, passed, or passed as the last one.
  lemma OneSeen<T(!new)>(c: seq<Handle<T>>, k: nat, key: seq<int>)
    requires k < |c| && Finds(c[..k], key, null)
    ensures c[k].key == key ==> Finds(c, key, c[k])
    ensures c[k].key != key ==> Finds(c[..k + 1], key, null) && (k + 1 == |c| ==> Finds(c, key, null))
  {
    assert c[..k + 1] == c[..k] + [c[k]];
    if k + 1 == |c| { assert c[..k + 1] == c; }
  }

  // The elements, in application order.
  function Elems<T>(s: seq<Handle<T>>): (r: seq<T>)
    ensures |r| == |s| && forall i :: 0 <= i < |r| ==> r[i] == s[i].elem
  {
    seq(|s|, i requires 0 <= i < |s| => s[i].elem)
  }

  // Where ordered insertion puts x: before the first element that cmp finds greater.
  function Pos<T>(s: seq<T>, x: T, cmp: (T, T) -> int): (k: nat)
    ensures k <= |s|
  {
    if s == [] || cmp(s[0], x) > 0 then 0 else 1 + Pos(s[1..], x, cmp)
  }

  ghost predicate NoneGreater<T>(s: seq<Handle<T>>, k: nat, x: Handle<T>, cmp: (T, T) -> int)
  {
    forall i :: 0 <= i < k <= |s| ==> cmp(s[i].elem, x.elem) <= 0
  }

  lemma NextAfter<T(!new)>(s: seq<Handle<T>>)
    requires Linked(s)
    ensures forall i :: 0 <= i < |s| ==> s[i].next == At(s, i + 1)
  {}

  lemma {:induction false} PosIs<T>(s: seq<T>, x: T, cmp: (T, T) -> int, k: nat)
    requires k <= |s| && (forall i :: 0 <= i < k ==> cmp(s[i], x) <= 0) && (k < |s| ==> cmp(s[k], x) > 0)
    ensures Pos(s, x, cmp) == k
  {
    if k > 0 { PosIs(s[1..], x, cmp, k - 1); }
  }

  // An item is put in front of the chain of its index.
  lemma PlacedGrows<T(!new)>(cs: seq<seq<Handle<T>>>, all: seq<Handle<T>>, x: Handle<T>)
    requires Placed(cs, all)
    ensures var b := Index(x.hashv, |cs|); Placed(cs[b := [x] + cs[b]], all + [x])
  {}

  // HASH_ADD_TO_BKT without the expansion, with the multiplier the bucket gets.
  method PushIntoBucket<T(!new)>(bs: array<Bucket<T>>, b: nat, x: Handle<T>, mult: nat,
                                 ghost cs: seq<seq<Handle<T>>>, ghost all: seq<Handle<T>>)
    requires BucketsOk(bs[..], cs, all) && InPlace(cs, all)
    requires b < bs.Length && b == Index(x.hashv, |cs|) && x !in cs[b]
    modifies bs, x`hhNext, x`hhPrev, cs[b]`hhPrev
    ensures bs[..] == old(bs[..])[b := Bucket(x, |cs[b]| + 1, mult)]
    ensures BucketsOk(bs[..], cs[b := [x] + cs[b]], all + [x])
    ensures InPlace(cs[b := [x] + cs[b]], all + [x])
  {
    ghost var c := cs[b];
    assert BucketOk(bs[..][b], c, all);
    var first, count := bs[b].hhHead, bs[b].count;
    AddToChain(c, first, x);
    bs[b] := Bucket(x, count + 1, mult);
    ghost var cs', all' := cs[b := [x] + c], all + [x];
    forall b' | 0 <= b' < |cs'| ensures BucketOk(bs[..][b'], cs'[b'], all') {
      if b' != b {
        assert old(BucketOk(bs[..][b'], cs[b'], all));
        Apart(cs, all, b', b, x);
      }
    }
  }

  // HASH_DEL_IN_BKT
  method PullFromBucket<T(!new)>(bs: array<Bucket<T>>, b: nat, x: Handle<T>, ghost cs: seq<seq<Handle<T>>>,
                                 ghost all: seq<Handle<T>>, ghost j: nat, ghost k: nat)
    requires BucketsOk(bs[..], cs, all) && InPlace(cs, all) && Distinct(all) && k < |all| && all[k] == x
    requires b < bs.Length && b == Index(x.hashv, |cs|) && j < |cs[b]| && cs[b][j] == x && Distinct(cs[b])
    modifies bs, cs[b]`hhNext, cs[b]`hhPrev
    ensures BucketsOk(bs[..], cs[b := Removed(cs[b], j)], Removed(all, k))
    ensures bs[..] == old(bs[..])[b := Bucket(At(Removed(cs[b], j), 0), |cs[b]| - 1, old(bs[b]).expandMult)]
  {
    hide Removed, Chained, Index, InPlace;
    ghost var c := cs[b];
    assert BucketOk(bs[..][b], c, all);
    var first, count := bs[b].hhHead, bs[b].count;
    Others(cs, all, b, x);
    first := RemoveFromChain(c, first, x, j);
    bs[b] := Bucket(first, count - 1, bs[b].expandMult);
    ghost var cs', all' := cs[b := Removed(c, j)], Removed(all, k);
    RemovedFrom(c, all, j, k);
    forall b' | 0 <= b' < |cs'| ensures BucketOk(bs[..][b'], cs'[b'], all') {
      if b' != b {
        assert old(BucketOk(bs[..][b'], cs[b'], all));
        StillAmong(cs[b'], all, k);
      }
    }
  }

  lemma RemovedFrom<T(!new)>(c: seq<Handle<T>>, all: seq<Handle<T>>, j: nat, k: nat)
    requires j < |c| && k < |all| && c[j] == all[k] && Distinct(c) && forall i :: 0 <= i < |c| ==> c[i] in all
    ensures |Removed(c, j)| == |c| - 1 && forall i :: 0 <= i < |Removed(c, j)| ==> Removed(c, j)[i] in Removed(all, k)
  {
    RemovedDistinct(c, j);
    StillAmong(Removed(c, j), all, k);
  }

  // The other chains do not hold x, nor any item of its chain.
  lemma Others<T(!new)>(cs: seq<seq<Handle<T>>>, all: seq<Handle<T>>, b: nat, x: Handle<T>)
    requires InPlace(cs, all) && b < |cs| && b == Index(x.hashv, |cs|)
    ensures forall b' :: 0 <= b' < |cs| && b' != b ==>
      x !in cs[b'] && forall i :: 0 <= i < |cs[b']| ==> cs[b'][i] !in cs[b]
  {
    forall b' | 0 <= b' < |cs| && b' != b
      ensures x !in cs[b'] && forall i :: 0 <= i < |cs[b']| ==> cs[b'][i] !in cs[b]
    {
      Apart(cs, all, b', b, x);
    }
  }

  lemma StillAmong<T(!new)>(c: seq<Handle<T>>, all: seq<Handle<T>>, k: nat)
    requires k < |all| && all[k] !in c && forall i :: 0 <= i < |c| ==> c[i] in all
    ensures forall i :: 0 <= i < |c| ==> c[i] in Removed(all, k)
  {
    forall i | 0 <= i < |c| ensures c[i] in Removed(all, k) {
      var m :| 0 <= m < |all| && all[m] == c[i];
      assert m != k;
      assert Removed(all, k)[if m < k then m else m - 1] == c[i];
    }
  }

  lemma PlacedShrinks<T(!new)>(cs: seq<seq<Handle<T>>>, all: seq<Handle<T>>, j: nat, k: nat)
    requires Placed(cs, all) && Distinct(all) && k < |all|
    requires var c := cs[Index(all[k].hashv, |cs|)]; Distinct(c) && j < |c| && c[j] == all[k]
    ensures var b := Index(all[k].hashv, |cs|); Placed(cs[b := Removed(cs[b], j)], Removed(all, k))
  {
    var x := all[k];
    var b := Index(x.hashv, |cs|);
    RemovedDistinct(all, k);
    RemovedDistinct(cs[b], j);
    forall h | h in all && h != x ensures h in Removed(all, k) && (h in cs[b] ==> h in Removed(cs[b], j)) {
      StillIn(all, k, h);
      StillIn(cs[b], j, h);
    }
  }

  lemma StillIn<T(!new)>(s: seq<Handle<T>>, k: nat, h: Handle<T>)
    requires k < |s| && h != s[k]
    ensures h in s <==> h in Removed(s, k)
  {
    if h in s {
      var m :| 0 <= m < |s| && s[m] == h;
      assert Removed(s, k)[if m < k then m else m - 1] == h;
    }
  }

  // Chains of different indices share no item.
  lemma Apart<T(!new)>(cs: seq<seq<Handle<T>>>, all: seq<Handle<T>>, b: nat, b': nat, x: Handle<T>)
    requires InPlace(cs, all) && b < |cs| && b' < |cs| && b != b' && Index(x.hashv, |cs|) == b'
    ensures forall i :: 0 <= i < |cs[b]| ==> cs[b][i] != x && cs[b][i] !in cs[b']
  {
    forall i | 0 <= i < |cs[b]| ensures cs[b][i] != x && cs[b][i] !in cs[b'] {
      assert cs[b][i] in cs[b];
      assert Index(cs[b][i].hashv, |cs|) == b;
    }
  }

  // ----- Doubling

  // Items beyond the ideal length of a chain, and of all chains.
  function Over(count: nat, ideal: nat): nat { if count > ideal then count - ideal else 0 }

  function Excess<T>(cs: seq<seq<T>>, ideal: nat): nat
  {
    if cs == [] then 0 else Over(|cs[0]|, ideal) + Excess(cs[1..], ideal)
  }

  lemma {:induction false} ExcessPush<T>(cs: seq<seq<T>>, b: nat, x: T, ideal: nat)
    requires b < |cs|
    ensures Excess(cs[b := [x] + cs[b]], ideal) == Excess(cs, ideal) + if |cs[b]| + 1 > ideal then 1 else 0
  {
    var cs' := cs[b := [x] + cs[b]];
    if b == 0 {
      assert cs'[1..] == cs[1..];
    } else {
      assert cs'[1..] == cs[1..][b - 1 := [x] + cs[1..][b - 1]];
      ExcessPush(cs[1..], b - 1, x, ideal);
    }
  }

  lemma {:induction false} NoExcess<T>(cs: seq<seq<T>>, ideal: nat)
    requires forall b :: 0 <= b < |cs| ==> cs[b] == []
    ensures Excess(cs, ideal) == 0
  {
    if cs != [] { NoExcess(cs[1..], ideal); }
  }

  // How often a bucket of that length may fill up before it expands: how often
  // the ideal length fits into it, if it is longer than that.
  ghost predicate MultOf(count: nat, mult: nat, ideal: nat)
  {
    if count > ideal then mult * ideal <= count < (mult + 1) * ideal else mult == 0
  }

  ghost predicate Mults<T(!new)>(bs: seq<Bucket<T>>, ideal: nat)
  {
    ideal > 0 && forall b :: 0 <= b < |bs| ==> MultOf(bs[b].count, bs[b].expandMult, ideal)
  }

  // Items already moved to the new buckets: those of the first i chains, and
  // the first k of chain i.
  ghost predicate Moved<T(!new)>(h: Handle<T>, cs: seq<seq<Handle<T>>>, i: nat, k: nat)
    requires |cs| > 0
    reads h`hashv
  {
    var b := Index(h.hashv, |cs|);
    b < i || (b == i < |cs| && k <= |cs[i]| && h in cs[i][..k])
  }

  // The items still to be moved are linked forwards as before.
  ghost predicate Waiting<T(!new)>(cs: seq<seq<Handle<T>>>, all: seq<Handle<T>>, i: nat, k: nat)
    reads all`hhNext
  {
    forall j, m :: 0 <= j < |cs| && 0 <= m < |cs[j]| && (i < j || (i == j && k <= m)) ==>
      cs[j][m] in all && cs[j][m].hhNext == At(cs[j], m + 1)
  }

  // The new chains hold exactly the items moved so far, in their places.
  ghost predicate HoldsMoved<T(!new)>(nc: seq<seq<Handle<T>>>, cs: seq<seq<Handle<T>>>, all: seq<Handle<T>>, i: nat,
                                      k: nat)
    requires |cs| > 0
    reads all`hashv
  {
    |nc| == 2 * |cs| && InPlace(nc, all)
    && (forall b, h :: 0 <= b < |nc| && h in nc[b] ==> h in all && Moved(h, cs, i, k))
    && (forall h :: h in all && Moved(h, cs, i, k) ==> h in nc[Index(h.hashv, |nc|)])
  }

  ghost predicate Halfway<T(!new)>(bs: seq<Bucket<T>>, nc: seq<seq<Handle<T>>>, cs: seq<seq<Handle<T>>>,
                                   all: seq<Handle<T>>, i: nat, k: nat)
    requires |cs| > 0
    reads all`hhNext, all`hhPrev, all`hashv
  {
    BucketsOk(bs, nc, all) && HoldsMoved(nc, cs, all, i, k) && Waiting(cs, all, i, k)
  }

  lemma Narrow<T(!new)>(bs: seq<Bucket<T>>, cs: seq<seq<Handle<T>>>, all: seq<Handle<T>>, x: Handle<T>)
    requires x in all && BucketsOk(bs, cs, all + [x]) && InPlace(cs, all + [x])
    ensures BucketsOk(bs, cs, all) && InPlace(cs, all)
  {
    forall b | 0 <= b < |cs| ensures BucketOk(bs[b], cs[b], all) { assert BucketOk(bs[b], cs[b], all + [x]); }
  }

  lemma OneMoreMoved<T(!new)>(nc: seq<seq<Handle<T>>>, cs: seq<seq<Handle<T>>>, all: seq<Handle<T>>, i: nat, k: nat)
    requires Placed(cs, all) && HoldsMoved(nc, cs, all, i, k) && i < |cs| && k < |cs[i]|
    ensures var x := cs[i][k];
      var b := Index(x.hashv, |nc|);
      HoldsMoved(nc[b := [x] + nc[b]], cs, all, i, k + 1)
  {
    var x := cs[i][k];
    assert x in cs[i] && cs[i][..k + 1] == cs[i][..k] + [x];
    forall h | h in all ensures Moved(h, cs, i, k + 1) <==> Moved(h, cs, i, k) || h == x {}
  }

  lemma NotYetMoved<T(!new)>(nc: seq<seq<Handle<T>>>, cs: seq<seq<Handle<T>>>, all: seq<Handle<T>>, i: nat, k: nat,
                             b: nat)
    requires Placed(cs, all) && HoldsMoved(nc, cs, all, i, k) && i < |cs| && k < |cs[i]| && Distinct(cs[i]) && b < |nc|
    ensures cs[i][k] in all && cs[i][k] !in nc[b] && Index(cs[i][k].hashv, |cs|) == i && InPlace(nc, all)
    ensures forall q :: 0 <= q < |nc[b]| ==> nc[b][q] in all
  {
    assert cs[i][k] in cs[i] && forall q :: 0 <= q < |nc[b]| ==> nc[b][q] in nc[b];
  }

  lemma OneLessWaiting<T(!new)>(cs: seq<seq<Handle<T>>>, all: seq<Handle<T>>, i: nat, k: nat)
    requires Placed(cs, all) && i < |cs| && k < |cs[i]| && Distinct(cs[i])
    ensures forall j, m :: 0 <= j < |cs| && 0 <= m < |cs[j]| && (i < j || (i == j && k + 1 <= m)) ==>
      cs[j][m] != cs[i][k]
  {
    forall j, m | 0 <= j < |cs| && 0 <= m < |cs[j]| && (i < j || (i == j && k + 1 <= m)) ensures cs[j][m] != cs[i][k] {
      assert cs[j][m] in cs[j] && cs[i][k] in cs[i];
      if j != i { assert Index(cs[j][m].hashv, |cs|) == j; }
    }
  }

  method MoveItem<T(!new)>(bs: array<Bucket<T>>, b: nat, x: Handle<T>, mult: nat, ghost nc: seq<seq<Handle<T>>>,
                           ghost cs: seq<seq<Handle<T>>>, ghost all: seq<Handle<T>>, ghost i: nat, ghost k: nat)
    requires Placed(cs, all) && Halfway(bs[..], nc, cs, all, i, k)
    requires i < |cs| && Distinct(cs[i]) && k < |cs[i]| && x == cs[i][k]
    requires b < bs.Length && b == Index(x.hashv, 2 * |cs|)
    modifies bs, all`hhNext, all`hhPrev
    ensures bs[..] == old(bs[..])[b := Bucket(x, |nc[b]| + 1, mult)]
    ensures Halfway(bs[..], nc[b := [x] + nc[b]], cs, all, i, k + 1)
  {
    hide Distinct, InPlace, BucketOk, Index, Moved;
    NotYetMoved(nc, cs, all, i, k, b);
    OneLessWaiting(cs, all, i, k);
    OneMoreMoved(nc, cs, all, i, k);
    PushIntoBucket(bs, b, x, mult, nc, all);
    Narrow(bs[..], nc[b := [x] + nc[b]], all, x);
  }

  method MoveNext<T(!new)>(bs: array<Bucket<T>>, x: Handle<T>, k2: nat, ideal: nat, nonideal: nat,
                           ghost nc: seq<seq<Handle<T>>>, ghost cs: seq<seq<Handle<T>>>, ghost all: seq<Handle<T>>,
                           ghost i: nat, ghost k: nat)
    returns (nonideal': nat, ghost nc': seq<seq<Handle<T>>>)
    requires Placed(cs, all) && Halfway(bs[..], nc, cs, all, i, k)
    requires i < |cs| && Distinct(cs[i]) && k < |cs[i]| && x == cs[i][k] && bs.Length == 2 * |cs| == Pow2(k2)
    requires Mults(bs[..], ideal) && nonideal == Excess(nc, ideal)
    modifies bs, all`hhNext, all`hhPrev
    ensures Halfway(bs[..], nc', cs, all, i, k + 1) && Mults(bs[..], ideal) && nonideal' == Excess(nc', ideal)
  {
    hide Distinct, InPlace, HoldsMoved, Placed, Waiting, Index, MultOf, Pow2, Excess;
    nonideal' := nonideal;
    var b := ToBucket(x.hashv, bs.Length, k2);
    assert bs[..][b].count == |nc[b]| && MultOf(|nc[b]|, bs[..][b].expandMult, ideal);
    ExcessPush(nc, b, x, ideal);
    var count, mult := bs[b].count + 1, bs[b].expandMult;
    MultOfNext(count, mult, ideal);
    if count > ideal {
      nonideal' := nonideal' + 1;
      mult := Divided(count, ideal);
    }
    MoveItem(bs, b, x, mult, nc, cs, all, i, k);
    nc' := nc[b := [x] + nc[b]];
  }

  // A chain within the ideal length leaves the multiplier at zero.
  lemma MultOfNext(count: nat, mult: nat, ideal: nat)
    requires count > 0 && MultOf(count - 1, mult, ideal)
    ensures count <= ideal ==> MultOf(count, mult, ideal)
  {}

  method Divided(count: nat, ideal: nat) returns (mult: nat)
    requires 0 < ideal < count
    ensures MultOf(count, mult, ideal)
  {
    mult := count / ideal;
    assert count == mult * ideal + count % ideal;
  }

  method MoveChain<T(!new)>(bs: array<Bucket<T>>, first: Handle?<T>, k2: nat, ideal: nat, nonideal: nat,
                            ghost nc: seq<seq<Handle<T>>>, ghost cs: seq<seq<Handle<T>>>, ghost all: seq<Handle<T>>,
                            ghost i: nat)
    returns (nonideal': nat, ghost nc': seq<seq<Handle<T>>>)
    requires Placed(cs, all) && Halfway(bs[..], nc, cs, all, i, 0)
    requires i < |cs| && Distinct(cs[i]) && first == At(cs[i], 0) && bs.Length == 2 * |cs| == Pow2(k2)
    requires Mults(bs[..], ideal) && nonideal == Excess(nc, ideal)
    modifies bs, all`hhNext, all`hhPrev
    ensures Halfway(bs[..], nc', cs, all, i + 1, 0) && Mults(bs[..], ideal) && nonideal' == Excess(nc', ideal)
  {
    hide Distinct, InPlace, BucketsOk, HoldsMoved, Placed, Mults, Excess;
    nonideal', nc' := nonideal, nc;
    var thh := first;
    ghost var k := 0;
    while thh != null
      invariant k <= |cs[i]| && thh == At(cs[i], k) && Halfway(bs[..], nc', cs, all, i, k)
      invariant Mults(bs[..], ideal) && nonideal' == Excess(nc', ideal)
      decreases |cs[i]| - k
    {
      var next := thh.hhNext;
      nonideal', nc' := MoveNext(bs, thh, k2, ideal, nonideal', nc', cs, all, i, k);
      thh := next;
      k := k + 1;
    }
    ChainMoved(bs[..], nc', cs, all, i);
  }

  lemma ChainMoved<T(!new)>(bs: seq<Bucket<T>>, nc: seq<seq<Handle<T>>>, cs: seq<seq<Handle<T>>>, all: seq<Handle<T>>,
                            i: nat)
    requires Placed(cs, all) && i < |cs| && Halfway(bs, nc, cs, all, i, |cs[i]|)
    ensures Halfway(bs, nc, cs, all, i + 1, 0)
  {
    assert cs[i][..|cs[i]|] == cs[i];
    forall h | h in all ensures Moved(h, cs, i, |cs[i]|) <==> Moved(h, cs, i + 1, 0) {}
  }

  // Old chain b is what new chains b and b + n hold together.
  ghost predicate Doubled<T(!new)>(cs: seq<seq<Handle<T>>>, nc: seq<seq<Handle<T>>>)
  {
    |nc| == 2 * |cs|
    && forall b :: 0 <= b < |cs| ==>
      (forall h :: h in cs[b] ==> h in nc[b] || h in nc[b + |cs|])
      && (forall h :: h in nc[b] ==> h in cs[b]) && (forall h :: h in nc[b + |cs|] ==> h in cs[b])
  }

  lemma IndexOfDouble(hashv: nat, n: nat)
    requires n > 0
    ensures Index(hashv, 2 * n) == Index(hashv, n) || Index(hashv, 2 * n) == Index(hashv, n) + n
  {
    var q, r := hashv / (2 * n), hashv % (2 * n);
    assert hashv == q * (2 * n) + r;
    if r < n {
      assert hashv == (2 * q) * n + r;
      DivModUnique(hashv, n, 2 * q, r);
    } else {
      assert hashv == (2 * q + 1) * n + (r - n);
      DivModUnique(hashv, n, 2 * q + 1, r - n);
    }
  }

  lemma PlacedTwice<T(!new)>(cs: seq<seq<Handle<T>>>, nc: seq<seq<Handle<T>>>, all: seq<Handle<T>>)
    requires Placed(cs, all) && Placed(nc, all) && |nc| == 2 * |cs|
    ensures Doubled(cs, nc)
  {
    var n := |cs|;
    forall b, h | 0 <= b < n && h in cs[b] ensures h in nc[b] || h in nc[b + n] { IndexOfDouble(h.hashv, n); }
    forall b, h | 0 <= b < n && h in nc[b] ensures h in cs[b] { IndexOfDouble(h.hashv, n); }
    forall b, h | 0 <= b < n && h in nc[b + n] ensures h in cs[b] { IndexOfDouble(h.hashv, n); }
  }

  lemma AllMoved<T(!new)>(bs: seq<Bucket<T>>, nc: seq<seq<Handle<T>>>, cs: seq<seq<Handle<T>>>, all: seq<Handle<T>>)
    requires Placed(cs, all) && Halfway(bs, nc, cs, all, |cs|, 0)
    ensures BucketsOk(bs, nc, all) && Placed(nc, all) && Doubled(cs, nc) && |nc| == |bs|
  {
    forall h | h in all ensures Moved(h, cs, |cs|, 0) {}
    PlacedTwice(cs, nc, all);
  }

  lemma NothingMoved<T(!new)>(bs: seq<Bucket<T>>, n: nat, ideal: nat, cs: seq<seq<Handle<T>>>, all: seq<Handle<T>>,
                              was: seq<Bucket<T>>)
    returns (nc: seq<seq<Handle<T>>>)
    requires BucketsOk(was, cs, all) && Placed(cs, all) && n == |bs| == 2 * |cs|
    requires forall b :: 0 <= b < |bs| ==> bs[b] == Bucket(null, 0, 0)
    ensures Halfway(bs, nc, cs, all, 0, 0) && Excess(nc, ideal) == 0
  {
    hide Waiting, Excess;
    nc := seq(n, b => []);
    NoExcess(nc, ideal);
    AllWaiting(was, cs, all);
    NoneHeld(bs, nc, cs, all);
  }

  lemma NoneHeld<T(!new)>(bs: seq<Bucket<T>>, nc: seq<seq<Handle<T>>>, cs: seq<seq<Handle<T>>>, all: seq<Handle<T>>)
    requires |nc| == |bs| == 2 * |cs| && |cs| > 0 && forall b :: 0 <= b < |nc| ==> nc[b] == []
    requires forall b :: 0 <= b < |bs| ==> bs[b] == Bucket(null, 0, 0)
    ensures BucketsOk(bs, nc, all) && HoldsMoved(nc, cs, all, 0, 0)
  {
    forall b | 0 <= b < |nc| ensures BucketOk(bs[b], nc[b], all) {}
    forall h | h in all ensures !Moved(h, cs, 0, 0) {}
  }

  lemma AllWaiting<T(!new)>(bs: seq<Bucket<T>>, cs: seq<seq<Handle<T>>>, all: seq<Handle<T>>)
    requires BucketsOk(bs, cs, all)
    ensures Waiting(cs, all, 0, 0)
  {
    forall j, m | 0 <= j < |cs| && 0 <= m < |cs[j]| ensures cs[j][m] in all && cs[j][m].hhNext == At(cs[j], m + 1) {
      assert BucketOk(bs[j], cs[j], all);
    }
  }

  // The old buckets still name the heads of their chains while items move.
  ghost predicate Heads<T(!new)>(bs: seq<Bucket<T>>, cs: seq<seq<Handle<T>>>)
  {
    |bs| == |cs| && forall b :: 0 <= b < |cs| ==> Distinct(cs[b]) && bs[b].hhHead == At(cs[b], 0)
  }

  lemma HeadsOf<T(!new)>(bs: seq<Bucket<T>>, cs: seq<seq<Handle<T>>>, all: seq<Handle<T>>)
    requires BucketsOk(bs, cs, all)
    ensures Heads(bs, cs)
  {
    forall b | 0 <= b < |cs| ensures Distinct(cs[b]) && bs[b].hhHead == At(cs[b], 0) {
      assert BucketOk(bs[b], cs[b], all);
    }
  }

  lemma CountsAreLengths<T(!new)>(bs: seq<Bucket<T>>, cs: seq<seq<Handle<T>>>, all: seq<Handle<T>>)
    requires BucketsOk(bs, cs, all)
    ensures forall b :: 0 <= b < |bs| ==> bs[b].count == |cs[b]|
  {
    forall b | 0 <= b < |bs| ensures bs[b].count == |cs[b]| { assert BucketOk(bs[b], cs[b], all); }
  }

  // The loops of HASH_EXPAND_BUCKETS over all old buckets.
  method MoveAll<T(!new)>(from: array<Bucket<T>>, to: array<Bucket<T>>, k2: nat, ideal: nat,
                          ghost cs: seq<seq<Handle<T>>>, ghost all: seq<Handle<T>>)
    returns (nonideal: nat, ghost nc: seq<seq<Handle<T>>>)
    requires from != to && BucketsOk(from[..], cs, all) && Placed(cs, all) && to.Length == 2 * |cs| == Pow2(k2)
    requires ideal > 0 && forall b :: 0 <= b < to.Length ==> to[b] == Bucket(null, 0, 0)
    modifies to, all`hhNext, all`hhPrev
    ensures BucketsOk(to[..], nc, all) && Placed(nc, all) && Doubled(cs, nc) && |nc| == to.Length
    ensures Mults(to[..], ideal) && nonideal == Excess(nc, ideal)
    ensures forall b :: 0 <= b < to.Length ==> to[b].count == |nc[b]|
    ensures forall b :: 0 <= b < to.Length ==>
      if to[b].count > ideal then to[b].expandMult * ideal <= to[b].count < (to[b].expandMult + 1) * ideal
      else to[b].expandMult == 0
  {
    hide BucketsOk, Placed, Halfway, Doubled;
    nonideal := 0;
    HeadsOf(from[..], cs, all);
    nc := NothingMoved(to[..], to.Length, ideal, cs, all, from[..]);
    for i := 0 to from.Length
      invariant Heads(from[..], cs) && Placed(cs, all) && Halfway(to[..], nc, cs, all, i, 0)
      invariant Mults(to[..], ideal) && nonideal == Excess(nc, ideal)
    {
      assert from[..][i].hhHead == At(cs[i], 0);
      nonideal, nc := MoveChain(to, from[i].hhHead, k2, ideal, nonideal, nc, cs, all, i);
    }
    AllMoved(to[..], nc, cs, all);
    CountsAreLengths(to[..], nc, all);
    forall b | 0 <= b < to.Length ensures MultOf(to[b].count, to[b].expandMult, ideal) {
      assert to[b] == to[..][b];
    }
  }

  // The ideal length of a chain: items over twice the buckets, rounded up.
  method IdealLength(items: nat, n: nat, log2: nat) returns (ideal: nat)
    requires n == Pow2(log2)
    ensures items > 0 ==> ideal > 0 && (ideal - 1) * (2 * n) < items <= ideal * (2 * n)
    ensures items == 0 ==> ideal == 0
  {
    AndLowMask(items, log2 + 1);
    hide BitAnd;
    ideal := Shr(items, log2 + 1) + if BitAnd(items, n * 2 - 1) != 0 then 1 else 0;
    RoundedUp(items, 2 * n);
  }

  lemma RoundedUp(a: nat, d: nat)
    requires d > 0
    ensures
      var q := a / d + if a % d != 0 then 1 else 0;
      (q - 1) * d < a + (if a == 0 then 1 else 0) && a <= q * d && (a > 0 ==> q > 0) && (a == 0 ==> q == 0)
  {
    assert a == (a / d) * d + a % d;
    if a == 0 { assert a / d == 0; }
  }

  class HashTable<T(!new)> {
    const hash: seq<int> -> nat
    var head: Handle?<T>
    var tail: Handle?<T>
    var buckets: array<Bucket<T>>
    var numBuckets: nat
    var log2NumBuckets: nat
    var numItems: nat
    var idealChainMaxlen: nat
    var nonidealItems: nat
    var ineffExpands: nat
    var noexpand: bool
    ghost var order: seq<Handle<T>>
    ghost var chains: seq<seq<Handle<T>>>

    // The index over the items in all.
    ghost predicate Indexed(all: seq<Handle<T>>)
      reads this`buckets, this`numBuckets, this`log2NumBuckets, this`chains, buckets, all`hhNext, all`hhPrev, all`hashv
    {
      buckets.Length == numBuckets == |chains| == Pow2(log2NumBuckets)
      && BucketsOk(buckets[..], chains, all) && Placed(chains, all)
    }

    ghost predicate Valid()
      reads this, buckets, order
    {
      Linked(order) && Keys(order, hash) && head == At(order, 0) && tail == At(order, |order| - 1)
      && (head != null ==> numItems == |order| && Indexed(order))
    }

    constructor (hash: seq<int> -> nat)
      ensures this.hash == hash && order == [] && Valid() && fresh(buckets)
    {
      this.hash := hash;
      head, tail := null, null;
      buckets := new Bucket<T>[0];
      numBuckets, log2NumBuckets, numItems := 0, 0, 0;
      idealChainMaxlen, nonidealItems, ineffExpands, noexpand := 0, 0, 0, false;
      order, chains := [], [];
    }

    // HASH_FIND: the chain of the key's bucket.
    method Find(key: seq<int>) returns (out: Handle?<T>)
      requires Valid()
      ensures Finds(order, key, out)
    {
      out := null;
      hide Linked, BucketsOk, Keys, Placed, Finds;
      if head == null {
        assert Finds(order, key, null) by { NothingFound(key); }
        return;
      }
      var b := ToBucket(hash(key), numBuckets, log2NumBuckets);
      out := FindInBucket(b, key);
      FoundInChain(order, chains, hash, key, out);
    }

    lemma NothingFound(key: seq<int>)
      requires Valid() && head == null
      ensures Finds(order, key, null)
    {}

    method FindInBucket(b: nat, key: seq<int>) returns (out: Handle?<T>)
      requires Indexed(order) && Keys(order, hash) && b < numBuckets
      ensures Finds(chains[b], key, out)
    {
      ghost var c, k := chains[b], 0;
      ChainFacts(buckets[..], chains, order, hash, b);
      NoneSeen(c, key);
      hide Indexed, Keys, Finds;
      out := buckets[b].hhHead;
      while out != null
        invariant k <= |c| && out == At(c, k) && Finds(c[..k], key, null)
        decreases |c| - k
      {
        OneSeen(c, k, key);
        if out.hashv == hash(key) && out.key == key { break; }
        out := out.hhNext;
        k := k + 1;
      }
    }

    // HASH_EXPAND_BUCKETS
    method ExpandBuckets(ghost all: seq<Handle<T>>)
      requires Indexed(all) && numItems == |all| > 0
      modifies this`buckets, this`numBuckets, this`log2NumBuckets, this`idealChainMaxlen, this`nonidealItems,
               this`ineffExpands, this`noexpand, this`chains, all`hhNext, all`hhPrev
      ensures Indexed(all) && fresh(buckets)
      ensures numBuckets == 2 * old(numBuckets) && log2NumBuckets == old(log2NumBuckets) + 1
      ensures Doubled(old(chains), chains)
      // The ideal length is the exact ceiling of items over buckets.
      ensures (idealChainMaxlen - 1) * numBuckets < numItems <= idealChainMaxlen * numBuckets
      ensures nonidealItems == Excess(chains, idealChainMaxlen)
      ensures forall b :: 0 <= b < numBuckets ==>
        if buckets[b].count > idealChainMaxlen then
          buckets[b].expandMult * idealChainMaxlen <= buckets[b].count
            < (buckets[b].expandMult + 1) * idealChainMaxlen
        else buckets[b].expandMult == 0
      ensures forall b :: 0 <= b < numBuckets ==> buckets[b].count == |chains[b]|
      ensures ineffExpands == (if nonidealItems > numItems / 2 then old(ineffExpands) + 1 else 0)
      ensures noexpand == (old(noexpand) || ineffExpands > 1)
    {
      hide BucketsOk, Placed, Doubled, Mults, Excess;
      var newBuckets := new Bucket<T>[2 * numBuckets](_ => Bucket(null, 0, 0));
      idealChainMaxlen := IdealLength(numItems, numBuckets, log2NumBuckets);
      nonidealItems, chains := MoveAll(buckets, newBuckets, log2NumBuckets + 1, idealChainMaxlen, chains, all);
      numBuckets := numBuckets * 2;
      log2NumBuckets := log2NumBuckets + 1;
      buckets := newBuckets;
      NoteExpansion();
    }

    // Two expansions in a row that leave most items in long chains are the last.
    method NoteExpansion()
      modifies this`ineffExpands, this`noexpand
      ensures ineffExpands == (if nonidealItems > numItems / 2 then old(ineffExpands) + 1 else 0)
      ensures noexpand == (old(noexpand) || ineffExpands > 1)
    {
      ineffExpands := if nonidealItems > Shr(numItems, 1) then ineffExpands + 1 else 0;
      if ineffExpands > 1 {
        noexpand := true;
      }
    }

    // HASH_ADD_TO_BKT
    method AddToBucket(x: Handle<T>, ghost all: seq<Handle<T>>)
      requires Indexed(all) && x !in all && numItems == |all| + 1
      modifies this`buckets, this`numBuckets, this`log2NumBuckets, this`idealChainMaxlen, this`nonidealItems,
               this`ineffExpands, this`noexpand, this`chains, buckets, x`hhNext, x`hhPrev, all`hhNext, all`hhPrev
      ensures Indexed(all + [x]) && (buckets == old(buckets) || fresh(buckets))
      // The bucket is full: the buckets are doubled.
      ensures
        var b := x.hashv % old(numBuckets);
        !old(noexpand) && old(buckets[b]).count + 1 >= 10 * (old(buckets[b]).expandMult + 1) ==>
          numBuckets == 2 * old(numBuckets) && Doubled(old(chains)[b := [x] + old(chains)[b]], chains)
          && (idealChainMaxlen - 1) * numBuckets < numItems <= idealChainMaxlen * numBuckets
          && nonidealItems == Excess(chains, idealChainMaxlen)
          && ineffExpands == (if nonidealItems > numItems / 2 then old(ineffExpands) + 1 else 0)
          && noexpand == (ineffExpands > 1)
      // It is not full, or they may not be: the item is in front of its chain.
      ensures
        var b := x.hashv % old(numBuckets);
        old(noexpand) || old(buckets[b]).count + 1 < 10 * (old(buckets[b]).expandMult + 1) ==>
          buckets == old(buckets) && chains == old(chains)[b := [x] + old(chains)[b]]
          && buckets[..] == old(buckets[..])[b := Bucket(x, old(buckets[b]).count + 1, old(buckets[b]).expandMult)]
          && unchanged(this`numBuckets, this`log2NumBuckets, this`idealChainMaxlen, this`nonidealItems,
                       this`ineffExpands, this`noexpand)
    {
      hide BucketsOk, Placed, Doubled;
      var b := ToBucket(x.hashv, numBuckets, log2NumBuckets);
      ChainIsWithin(buckets[..], chains, all, b);
      var mult := buckets[b].expandMult;
      PlacedGrows(chains, all, x);
      PushIntoBucket(buckets, b, x, mult, chains, all);
      chains := chains[b := [x] + chains[b]];
      if buckets[b].count >= (mult + 1) * HASH_BKT_CAPACITY_THRESH && !noexpand {
        assert forall k :: 0 <= k < |all + [x]| ==> (all + [x])[k] in all || (all + [x])[k] == x;
        ExpandBuckets(all + [x]);
      }
    }

    // HASH_MAKE_TABLE, with the first item as tail.
    method MakeTable(x: Handle<T>)
      modifies this`tail, this`buckets, this`numBuckets, this`log2NumBuckets, this`numItems, this`idealChainMaxlen,
               this`nonidealItems, this`ineffExpands, this`noexpand, this`chains
      ensures tail == x && numItems == 0 && Indexed([]) && fresh(buckets)
      ensures numBuckets == 32 && log2NumBuckets == 5
      ensures forall b :: 0 <= b < buckets.Length ==> buckets[b] == Bucket(null, 0, 0)
      ensures idealChainMaxlen == nonidealItems == ineffExpands == 0 && !noexpand
    {
      hide BucketsOk, Placed, Pow2;
      tail := x;
      buckets := new Bucket<T>[HASH_INITIAL_NUM_BUCKETS](_ => Bucket(null, 0, 0));
      numBuckets, log2NumBuckets := HASH_INITIAL_NUM_BUCKETS, HASH_INITIAL_NUM_BUCKETS_LOG2;
      numItems, idealChainMaxlen, nonidealItems, ineffExpands, noexpand := 0, 0, 0, 0, false;
      chains := seq(HASH_INITIAL_NUM_BUCKETS, b => []);
      EmptyIndex(buckets[..], chains);
    }

    // The list and the table agree on the items, but x is not indexed yet.
    ghost predicate Half(all: seq<Handle<T>>)
      reads this, buckets, order, all
    {
      Linked(order) && order != [] && head == At(order, 0) && tail == At(order, |order| - 1)
      && numItems == |all| && Indexed(all)
    }

    // The list part of HASH_ADD_KEYPTR: last in application order.
    method LinkLast(x: Handle<T>)
      requires Valid() && x !in order
      modifies this, x`next, x`prev, order`next
      ensures order == old(order) + [x] && Half(old(order)) && (buckets == old(buckets) || fresh(buckets))
    {
      hide Linked, Keys, BucketsOk, Placed;
      if head == null {
        assert order == [];
        LinkFirst(x);
      } else {
        LinkBehindTail(x);
      }
      order := order + [x];
      assert old(order) == [] ==> order == [x];
    }

    method LinkFirst(x: Handle<T>)
      modifies this, x`next, x`prev
      ensures head == tail == x && Linked([x]) && numItems == 0 && Indexed([]) && fresh(buckets)
      ensures order == old(order)
    {
      x.next := null;
      x.prev := null;
      head := x;
      MakeTable(x);
    }

    method LinkBehindTail(x: Handle<T>)
      requires Valid() && x !in order && head != null
      modifies this`tail, x`next, x`prev, order`next
      ensures Linked(order + [x]) && tail == x && numItems == |order| && Indexed(order)
    {
      hide BucketsOk, Placed, Keys;
      AppendToList(order, tail, x);
      tail := x;
    }

    // The index part of both additions.
    method CountAndIndex(x: Handle<T>, ghost all: seq<Handle<T>>)
      requires Half(all) && Keys(order, hash) && x !in all && SameItems(all + [x], order)
      modifies this`numItems, this`buckets, this`numBuckets, this`log2NumBuckets, this`idealChainMaxlen,
               this`nonidealItems, this`ineffExpands, this`noexpand, this`chains,
               buckets, x`hhNext, x`hhPrev, all`hhNext, all`hhPrev
      ensures Valid() && (buckets == old(buckets) || fresh(buckets))
    {
      hide Linked, Keys, BucketsOk, Placed;
      numItems := numItems + 1;
      AddToBucket(x, all);
      IndexedStays(buckets[..], chains, all + [x], order);
    }

    // The hash handle of an item to be added.
    method SetKey(x: Handle<T>, key: seq<int>)
      requires Valid() && x !in order && Finds(order, key, null)
      modifies x`hashv, x`key
      ensures Valid() && x.key == key && Keys(order + [x], hash)
    {
      x.hashv := hash(key);
      x.key := key;
      hide Linked, Indexed, Finds;
      KeysGrow(order, x, key, hash);
    }

    // HASH_ADD_KEYPTR. The key must be new.
    method Add(x: Handle<T>, key: seq<int>)
      requires Valid() && x !in order && Finds(order, key, null)
      modifies this, buckets, x, order`next, order`hhNext, order`hhPrev
      ensures Valid() && order == old(order) + [x] && x.key == key && (buckets == old(buckets) || fresh(buckets))
    {
      hide Valid, Half, Keys, Finds;
      ghost var all := order;
      SetKey(x, key);
      LinkLast(x);
      CountAndIndex(x, all);
    }

    // HASH_AKBI_INNER_LOOP: the first greater item, or none.
    method FirstGreater(x: Handle<T>, cmp: (T, T) -> int) returns (iter: Handle?<T>)
      requires Valid()
      ensures iter == At(order, Pos(Elems(order), x.elem, cmp))
    {
      hide Indexed, Keys, Pos;
      ghost var k := 0;
      iter := head;
      NextAfter(order);
      hide Linked;
      while iter != null && cmp(iter.elem, x.elem) <= 0
        invariant k <= |order| && iter == At(order, k) && NoneGreater(order, k, x, cmp)
        decreases |order| - k
      {
        iter := iter.next;
        k := k + 1;
      }
      PosIs(Elems(order), x.elem, cmp, k);
    }

    // HASH_AKBI_INNER_LOOP and the linking after it: before the first greater
    // item, or last.
    method LinkInOrder(x: Handle<T>, cmp: (T, T) -> int)
      requires Valid() && x !in order
      modifies this, x`next, x`prev, order`next, order`prev
      ensures order == Inserted(old(order), Pos(Elems(old(order)), x.elem, cmp), x)
      ensures Half(old(order)) && (buckets == old(buckets) || fresh(buckets))
    {
      hide Half, Indexed, Keys;
      ghost var all := order;
      ghost var k := Pos(Elems(all), x.elem, cmp);
      hide Linked, Pos;
      var iter := FirstGreater(x, cmp);
      if iter != null {
        LinkBefore(x, iter, k);
      } else {
        LinkLast(x);
        assert all + [x] == Inserted(all, k, x);
      }
    }

    method LinkBefore(x: Handle<T>, iter: Handle<T>, ghost k: nat)
      requires Valid() && x !in order && k < |order| && iter == order[k]
      modifies this`head, this`order, x`next, x`prev, order`next, order`prev
      ensures order == Inserted(old(order), k, x) && Half(old(order))
    {
      hide Linked, Indexed, Keys;
      head := InsertIntoList(order, head, iter, x, k);
      InsertedAt(order, k, x, |order|);
      order := Inserted(order, k, x);
    }

    // HASH_ADD_KEYPTR_INORDER. The key must be new.
    method AddInOrder(x: Handle<T>, key: seq<int>, cmp: (T, T) -> int)
      requires Valid() && x !in order && Finds(order, key, null)
      modifies this, buckets, x, order`next, order`prev, order`hhNext, order`hhPrev
      ensures Valid() && order == Inserted(old(order), Pos(Elems(old(order)), x.elem, cmp), x) && x.key == key
      ensures buckets == old(buckets) || fresh(buckets)
    {
      hide Valid, Half, Keys, Finds, SameItems;
      ghost var all := order;
      SetKey(x, key);
      ghost var k := Pos(Elems(all), x.elem, cmp);
      KeysInserted(all, x, hash, k);
      LinkInOrder(x, cmp);
      CountAndIndex(x, all);
    }

    // HASH_DELETE
    method Delete(x: Handle<T>, ghost k: nat)
      requires Valid() && k < |order| && order[k] == x
      modifies this`head, this`tail, this`numItems, this`order, this`chains, buckets,
               order`next, order`prev, order`hhNext, order`hhPrev
      ensures Valid() && order == Removed(old(order), k) && buckets == old(buckets)
    {
      if x.prev == null && x.next == null {
        OnlyItem(x, k);
        head, tail := null, null;
        order := [];
      } else {
        Unlink(x, k);
      }
    }

    lemma OnlyItem(x: Handle<T>, k: nat)
      requires Linked(order) && k < |order| && order[k] == x
      ensures x.prev == null && x.next == null <==> |order| == 1
    {
      assert x.prev == At(order, k - 1) && x.next == At(order, k + 1);
    }

    method Unlink(x: Handle<T>, ghost k: nat)
      requires Valid() && k < |order| && order[k] == x && (x.prev != null || x.next != null)
      modifies this`head, this`tail, this`numItems, this`order, this`chains, buckets,
               order`next, order`prev, order`hhNext, order`hhPrev
      ensures Valid() && order == Removed(old(order), k) && buckets == old(buckets)
    {
      hide Linked, Keys, BucketsOk, Placed, Removed;
      ghost var all, rest := order, Removed(order, k);
      MoreThanOne(x, k);
      UnlinkFromList(x, k);
      DeleteInBucket(x, all, k);
      assert Linked(rest);
      assert Keys(rest, hash);
      numItems := numItems - 1;
      order := rest;
    }

    lemma MoreThanOne(x: Handle<T>, k: nat)
      requires Valid() && k < |order| && order[k] == x && (x.prev != null || x.next != null)
      ensures |order| >= 2 && Distinct(order) && Keys(Removed(order, k), hash) && |Removed(order, k)| == |order| - 1
      ensures forall i :: 0 <= i < |order| - 1 ==> Removed(order, k)[i] in order
    {
      hide BucketsOk, Placed, Indexed, Keys;
      OnlyItem(x, k);
      KeysRemoved(order, hash, k);
    }

    method UnlinkFromList(x: Handle<T>, ghost k: nat)
      requires Valid() && |order| >= 2 && k < |order| && order[k] == x
      modifies this`head, this`tail, order`next, order`prev
      ensures Linked(Removed(order, k)) && head == Removed(order, k)[0] && tail == Removed(order, k)[|order| - 2]
    {
      hide Linked, Indexed, Keys, Removed;
      head, tail := RemoveFromList(order, head, tail, x, k);
    }

    method DeleteInBucket(x: Handle<T>, ghost all: seq<Handle<T>>, ghost k: nat)
      requires Indexed(all) && Distinct(all) && k < |all| && all[k] == x
      modifies this`chains, buckets, all`hhNext, all`hhPrev
      ensures Indexed(Removed(all, k))
    {
      hide BucketsOk, Placed, Removed;
      var b := ToBucket(x.hashv, numBuckets, log2NumBuckets);
      ghost var j := PlaceInChain(buckets[..], chains, all, k);
      PullFromBucket(buckets, b, x, chains, all, j, k);
      PlacedShrinks(chains, all, j, k);
      chains := chains[b := Removed(chains[b], j)];
    }
  }

  lemma PlaceInChain<T(!new)>(bs: seq<Bucket<T>>, cs: seq<seq<Handle<T>>>, all: seq<Handle<T>>, k: nat) returns (j: nat)
    requires BucketsOk(bs, cs, all) && Placed(cs, all) && k < |all|
    ensures var b := Index(all[k].hashv, |cs|);
      j < |cs[b]| && cs[b][j] == all[k] && Distinct(cs[b]) && forall i :: 0 <= i < |cs[b]| ==> cs[b][i] in all
    ensures InPlace(cs, all)
  {
    var b := Index(all[k].hashv, |cs|);
    assert all[k] in cs[b];
    j :| 0 <= j < |cs[b]| && cs[b][j] == all[k];
    assert BucketOk(bs[b], cs[b], all);
  }

  lemma KeysInserted<T(!new)>(s: seq<Handle<T>>, x: Handle<T>, hash: seq<int> -> nat, k: nat)
    requires Keys(s + [x], hash) && k <= |s|
    ensures Keys(Inserted(s, k, x), hash) && SameItems(s + [x], Inserted(s, k, x))
  {
    var t, u := s + [x], Inserted(s, k, x);
    forall h | h in t ensures h in u {
      var i :| 0 <= i < |t| && t[i] == h;
      assert u[if i < k then i else if i < |s| then i + 1 else k] == h;
    }
    forall i, j | 0 <= i < j < |u| ensures u[i].key != u[j].key {
      assert u[i] == t[if i < k then i else if i == k then |s| else i - 1];
      assert u[j] == t[if j < k then j else if j == k then |s| else j - 1];
    }
  }

  lemma KeysRemoved<T(!new)>(s: seq<Handle<T>>, hash: seq<int> -> nat, k: nat)
    requires Keys(s, hash) && k < |s|
    ensures Keys(Removed(s, k), hash)
  {
    var u := Removed(s, k);
    forall i, j | 0 <= i < j < |u| ensures u[i].key != u[j].key {
      assert u[i] == s[if i < k then i else i + 1] && u[j] == s[if j < k then j else j + 1];
    }
  }

  // ----- The counts that HASH_FSCK adds up

  function Total<T>(cs: seq<seq<T>>): nat { if cs == [] then 0 else Total(cs[..|cs| - 1]) + |cs[|cs| - 1]| }

  ghost function Items<T(!new)>(s: seq<Handle<T>>): set<Handle<T>> { set h | h in s }

  lemma {:induction false} SetSize<T(!new)>(s: seq<Handle<T>>)
    requires Distinct(s)
    ensures |Items(s)| == |s|
  {
    if s != [] {
      var rest := s[..|s| - 1];
      SetSize(rest);
      assert Items(s) == Items(rest) + {s[|s| - 1]} by { assert s == rest + [s[|s| - 1]]; }
    }
  }

  // The items whose index is below b.
  ghost function Below<T(!new)>(all: seq<Handle<T>>, n: nat, b: nat): set<Handle<T>>
    requires n > 0
    reads all`hashv
  {
    set h | h in all && Index(h.hashv, n) < b
  }

  lemma {:induction false} TotalIsBelow<T(!new)>(cs: seq<seq<Handle<T>>>, all: seq<Handle<T>>, b: nat)
    requires Placed(cs, all) && b <= |cs| && forall i :: 0 <= i < |cs| ==> Distinct(cs[i])
    ensures Total(cs[..b]) == |Below(all, |cs|, b)|
  {
    if b > 0 {
      TotalIsBelow(cs, all, b - 1);
      assert cs[..b][..b - 1] == cs[..b - 1];
      var chain := Items(cs[b - 1]);
      SetSize(cs[b - 1]);
      assert Below(all, |cs|, b) == Below(all, |cs|, b - 1) + chain;
      assert Below(all, |cs|, b - 1) !! chain;
    }
  }

  // The bucket counts add up to num_items.
  lemma CountsAddUp<T(!new)>(t: HashTable<T>)
    requires t.Valid() && t.head != null
    ensures Total(t.chains) == t.numItems
    ensures forall b :: 0 <= b < t.numBuckets ==> t.buckets[b].count == |t.chains[b]|
  {
    forall b | 0 <= b < |t.chains| ensures Distinct(t.chains[b]) && t.buckets[b].count == |t.chains[b]| {
      assert BucketOk(t.buckets[..][b], t.chains[b], t.order);
    }
    TotalIsBelow(t.chains, t.order, |t.chains|);
    assert t.chains[..|t.chains|] == t.chains;
    assert Below(t.order, |t.chains|, |t.chains|) == Items(t.order);
    SetSize(t.order);
  }

  lemma EmptyIndex<T(!new)>(bs: seq<Bucket<T>>, cs: seq<seq<Handle<T>>>)
    requires |bs| == |cs| == HASH_INITIAL_NUM_BUCKETS && forall b :: 0 <= b < |cs| ==> cs[b] == []
    requires forall b :: 0 <= b < |bs| ==> bs[b] == Bucket(null, 0, 0)
    ensures BucketsOk(bs, cs, []) && Placed(cs, []) && Pow2(HASH_INITIAL_NUM_BUCKETS_LOG2) == HASH_INITIAL_NUM_BUCKETS
  {
    assert Pow2(5) == 2 * (2 * (2 * (2 * (2 * Pow2(0)))));
    forall b | 0 <= b < |cs| ensures BucketOk(bs[b], cs[b], []) {}
  }

  ghost predicate SameItems<T(!new)>(s: seq<Handle<T>>, t: seq<Handle<T>>)
  {
    |s| == |t| && (forall h :: h in s ==> h in t) && forall h :: h in t ==> h in s
  }

  lemma IndexedStays<T(!new)>(bs: seq<Bucket<T>>, cs: seq<seq<Handle<T>>>, all: seq<Handle<T>>, all': seq<Handle<T>>)
    requires BucketsOk(bs, cs, all) && Placed(cs, all) && SameItems(all, all')
    ensures BucketsOk(bs, cs, all') && Placed(cs, all')
  {
    forall b | 0 <= b < |cs| ensures BucketOk(bs[b], cs[b], all') { assert BucketOk(bs[b], cs[b], all); }
  }

  lemma KeysGrow<T(!new)>(s: seq<Handle<T>>, x: Handle<T>, key: seq<int>, hash: seq<int> -> nat)
    requires Keys(s, hash) && x.key == key && x.hashv == hash(key) && Finds(s, key, null)
    ensures Keys(s + [x], hash)
  {}

  // Items of a chain are among all.
  lemma ChainIsWithin<T(!new)>(bs: seq<Bucket<T>>, cs: seq<seq<Handle<T>>>, all: seq<Handle<T>>, b: nat)
    requires BucketsOk(bs, cs, all) && Placed(cs, all) && b < |cs|
    ensures (forall k :: 0 <= k < |cs[b]| ==> cs[b][k] in all) && InPlace(cs, all) && bs[b].count == |cs[b]|
  {
    assert BucketOk(bs[b], cs[b], all);
  }

  lemma ChainFacts<T(!new)>(bs: seq<Bucket<T>>, cs: seq<seq<Handle<T>>>, all: seq<Handle<T>>, hash: seq<int> -> nat,
                            b: nat)
    requires BucketsOk(bs, cs, all) && Keys(all, hash) && b < |cs|
    ensures bs[b].hhHead == At(cs[b], 0)
    ensures forall k :: 0 <= k < |cs[b]| ==> cs[b][k].hhNext == At(cs[b], k + 1) && cs[b][k].hashv == hash(cs[b][k].key)
  {
    assert BucketOk(bs[b], cs[b], all);
  }

  lemma FoundInChain<T(!new)>(all: seq<Handle<T>>, cs: seq<seq<Handle<T>>>, hash: seq<int> -> nat, key: seq<int>,
                              out: Handle?<T>)
    requires Placed(cs, all) && Keys(all, hash) && Finds(cs[Index(hash(key), |cs|)], key, out)
    ensures Finds(all, key, out)
  {}
}
