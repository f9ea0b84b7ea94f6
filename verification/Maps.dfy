// MMMap: items found by the bytes of their key, kept in insertion order or, in
// a sorted map, in the order of compare_mmobjs.

module Maps {
  import opened Bits
  import opened Bytes
  import opened Comparison
  import opened VarInt

  // Keys are of one primary class per map.
  predicate IsKey(k: Value) { k.IntV? || k.LongV? || k.StringV? }

  // The memory a key is hashed by: its 4 or 8 value bytes, or its characters.
  function KeyBytes(k: Value): (r: seq<byte>)
    requires IsKey(k)
    ensures (k.IntV? ==> |r| == 4) && (k.LongV? ==> |r| == 8) && (k.StringV? ==> r == k.s)
  {
    match k
    case IntV(i) => BE(4, if i >= 0 then i else i + 0x1_0000_0000)
    case LongV(l) => BE(8, if l >= 0 then l else l + U64)
    case StringV(s) => s
  }

  lemma KeysByBytes(a: Value, b: Value)
    requires IsKey(a) && IsKey(b) && ClassOf(a) == ClassOf(b)
    ensures KeyBytes(a) == KeyBytes(b) <==> a == b
  {
    PowTable();
    if KeyBytes(a) == KeyBytes(b) {
      match a
      case IntV(i) =>
        WordsByBytes(4, if i >= 0 then i else i + 0x1_0000_0000, if b.i >= 0 then b.i else b.i + 0x1_0000_0000);
      case LongV(l) => WordsByBytes(8, if l >= 0 then l else l + U64, if b.l >= 0 then b.l else b.l + U64);
      case StringV(_) =>
    }
  }

  lemma WordsByBytes(n: nat, u: nat, v: nat)
    requires BE(n, u) == BE(n, v) && u < Pow256(n) && v < Pow256(n)
    ensures u == v
  {
    ValueOfBE(n, u);
    ValueOfBE(n, v);
    SmallMod(u, Pow256(n));
    SmallMod(v, Pow256(n));
  }

  // compare_mmobjs never ties on different keys, so the ordered insertion
  // never gets to compare two values.
  lemma DifferentKeysNeverTie(a: Value, b: Value)
    requires IsKey(a) && IsKey(b) && ClassOf(a) == ClassOf(b) && KeyBytes(a) != KeyBytes(b)
    ensures Compare(a, b) != 0
  {
    hide BE;
    match a
    case IntV(i) => OnlyEqualsDifferByZero(i, b.i);
    case LongV(_) =>
    case StringV(s) => LexTotal(s, b.s);
  }

  lemma OnlyEqualsDifferByZero(i: int32, j: int32)
    ensures Int32(i - j) == 0 ==> i == j
  {}

  datatype Item<V> = Item(key: Value, val: V)

  predicate KeyOf(k: Value, c: Class) { IsKey(k) && ClassOf(k) == c }

  // All keys of class c.
  ghost predicate Keyed<V>(s: seq<Item<V>>, c: Class)
  {
    forall x :: x in s ==> KeyOf(x.key, c)
  }

  // All keys inside window w: only what compares keys asks for it.
  ghost predicate Within<V>(s: seq<Item<V>>, w: Window)
  {
    forall x :: x in s ==> Tame(x.key, w)
  }

  ghost predicate NoKey<V>(s: seq<Item<V>>, k: Value)
  {
    forall x :: x in s ==> x.key != k
  }

  ghost predicate AllAbove<V>(s: seq<Item<V>>, k: Value)
  {
    forall x :: x in s ==> Compare(k, x.key) < 0
  }

  ghost predicate Distinct<V>(s: seq<Item<V>>)
  {
    s == [] || (NoKey(s[1..], s[0].key) && Distinct(s[1..]))
  }

  ghost predicate Ascending<V>(s: seq<Item<V>>)
  {
    s == [] || (AllAbove(s[1..], s[0].key) && Ascending(s[1..]))
  }

  ghost predicate WellFormed<V>(sorted: bool, s: seq<Item<V>>, c: Class)
  {
    Keyed(s, c) && Distinct(s) && (sorted ==> Ascending(s))
  }

  // ----- The operations as functions on the item sequence

  ghost predicate Hashable<V>(s: seq<Item<V>>) { forall x | x in s :: IsKey(x.key) }

  // The position of the first item with the key's bytes, or the length.
  function Find<V>(s: seq<Item<V>>, k: Value): (i: nat)
    requires IsKey(k) && Hashable(s)
    ensures i <= |s|
  {
    if s == [] || KeyBytes(s[0].key) == KeyBytes(k) then 0 else 1 + Find(s[1..], k)
  }

  function Without<V>(s: seq<Item<V>>, k: Value): (r: seq<Item<V>>)
    requires IsKey(k) && Hashable(s)
    ensures forall x :: x in r ==> x in s
  {
    if s == [] then []
    else if KeyBytes(s[0].key) == KeyBytes(k) then s[1..]
    else [s[0]] + Without(s[1..], k)
  }

  // HASH_ADD_KEYPTR_INORDER: before the first greater item.
  function Insert<V>(s: seq<Item<V>>, x: Item<V>): (r: seq<Item<V>>)
    ensures forall y :: y in r ==> y == x || y in s
  {
    if s == [] || Compare(s[0].key, x.key) > 0 then [x] + s else [s[0]] + Insert(s[1..], x)
  }

  function Added<V>(sorted: bool, s: seq<Item<V>>, k: Value, v: V): seq<Item<V>>
    requires IsKey(k) && Hashable(s)
  {
    var rest := Without(s, k);
    if sorted then Insert(rest, Item(k, v)) else rest + [Item(k, v)]
  }

  // ----- What they mean

  // The finite map a sequence of items stands for.
  function Contents<V>(s: seq<Item<V>>): map<Value, V>
  {
    if s == [] then map[] else Contents(s[1..])[s[0].key := s[0].val]
  }

  lemma {:induction false} ContentsKeys<V>(s: seq<Item<V>>, k: Value)
    ensures k in Contents(s) <==> !NoKey(s, k)
  {
    if s != [] {
      ContentsKeys(s[1..], k);
      assert s == [s[0]] + s[1..];
    }
  }

  lemma WithoutRemoves<V>(sorted: bool, s: seq<Item<V>>, k: Value, c: Class)
    requires WellFormed(sorted, s, c) && KeyOf(k, c)
    ensures WellFormed(sorted, Without(s, k), c) && NoKey(Without(s, k), k)
    ensures Contents(Without(s, k)) == Contents(s) - {k}
  {
    WithoutKeepsShape(s, k, c);
    if sorted { WithoutKeepsOrder(s, k); }
    WithoutContents(s, k, c);
  }

  lemma {:induction false} WithoutKeepsShape<V>(s: seq<Item<V>>, k: Value, c: Class)
    requires Keyed(s, c) && Distinct(s) && KeyOf(k, c)
    ensures Distinct(Without(s, k)) && NoKey(Without(s, k), k)
  {
    if s != [] {
      KeysByBytes(s[0].key, k);
      if s[0].key != k {
        WithoutKeepsShape(s[1..], k, c);
        assert Without(s, k)[1..] == Without(s[1..], k);
      }
    }
  }

  lemma {:induction false} WithoutKeepsOrder<V>(s: seq<Item<V>>, k: Value)
    requires IsKey(k) && Hashable(s) && Ascending(s)
    ensures Ascending(Without(s, k))
  {
    if s != [] && KeyBytes(s[0].key) != KeyBytes(k) {
      WithoutKeepsOrder(s[1..], k);
      assert Without(s, k)[1..] == Without(s[1..], k);
    }
  }

  lemma {:induction false} WithoutContents<V>(s: seq<Item<V>>, k: Value, c: Class)
    requires Keyed(s, c) && Distinct(s) && KeyOf(k, c)
    ensures Contents(Without(s, k)) == Contents(s) - {k}
  {
    hide KeyBytes;
    if s != [] {
      KeysByBytes(s[0].key, k);
      if s[0].key != k {
        WithoutContents(s[1..], k, c);
        ContentsOfCons(s[0], Without(s[1..], k));
      } else {
        TailContents(s);
      }
    }
  }

  lemma ContentsOfCons<V>(x: Item<V>, s: seq<Item<V>>)
    ensures Contents([x] + s) == Contents(s)[x.key := x.val]
  {
    assert ([x] + s)[1..] == s;
  }

  lemma InsertPreserves<V>(s: seq<Item<V>>, x: Item<V>, c: Class, w: Window)
    requires WellFormed(true, s, c) && Within(s, w) && KeyOf(x.key, c) && Tame(x.key, w) && NoKey(s, x.key)
    ensures WellFormed(true, Insert(s, x), c)
    ensures Contents(Insert(s, x)) == Contents(s)[x.key := x.val]
  {
    InsertKeepsShape(s, x);
    InsertKeepsOrder(s, x, w);
    InsertContents(s, x);
  }

  lemma {:induction false} InsertKeepsShape<V>(s: seq<Item<V>>, x: Item<V>)
    requires Distinct(s) && NoKey(s, x.key)
    ensures Distinct(Insert(s, x))
  {
    if s != [] {
      if Compare(s[0].key, x.key) > 0 {
        assert Insert(s, x)[1..] == s;
      } else {
        InsertKeepsShape(s[1..], x);
        assert Insert(s, x)[1..] == Insert(s[1..], x);
      }
    }
  }

  lemma {:induction false} InsertKeepsOrder<V>(s: seq<Item<V>>, x: Item<V>, w: Window)
    requires Within(s, w) && Ascending(s) && Tame(x.key, w) && NoKey(s, x.key)
    ensures Ascending(Insert(s, x))
  {
    if s != [] {
      KeyOrder(s[0].key, x.key, w);
      if Compare(s[0].key, x.key) > 0 {
        BelowHeadBelowAll(s, x.key, w);
        assert Insert(s, x)[1..] == s;
      } else {
        InsertKeepsOrder(s[1..], x, w);
        assert Insert(s, x)[1..] == Insert(s[1..], x);
      }
    }
  }

  lemma {:induction false} InsertContents<V>(s: seq<Item<V>>, x: Item<V>)
    requires NoKey(s, x.key)
    ensures Contents(Insert(s, x)) == Contents(s)[x.key := x.val]
  {
    if s == [] || Compare(s[0].key, x.key) > 0 {
      ContentsOfCons(x, s);
    } else {
      InsertContents(s[1..], x);
      ContentsOfCons(s[0], Insert(s[1..], x));
    }
  }

  lemma KeyOrder(a: Value, b: Value, w: Window)
    requires Tame(a, w) && Tame(b, w) && a != b
    ensures Compare(a, b) > 0 <==> Compare(b, a) < 0
    ensures Compare(a, b) < 0 || Compare(b, a) < 0
  {
    WordOrder(a, b, w);
    WordOrder(b, a, w);
  }

  lemma BelowHeadBelowAll<V>(s: seq<Item<V>>, k: Value, w: Window)
    requires s != [] && Within(s, w) && Ascending(s) && Tame(k, w) && Compare(k, s[0].key) < 0
    ensures AllAbove(s, k)
  {
    forall x | x in s ensures Compare(k, x.key) < 0 {
      if x != s[0] {
        assert x in s[1..];
        Transitive(k, s[0].key, x.key, w);
      }
    }
  }

  lemma {:induction false} AppendPreserves<V>(s: seq<Item<V>>, x: Item<V>)
    requires Distinct(s) && NoKey(s, x.key)
    ensures Distinct(s + [x])
    ensures Contents(s + [x]) == Contents(s)[x.key := x.val]
  {
    if s == [] {
      assert s + [x] == [x];
      ContentsOfCons(x, []);
    } else {
      assert (s + [x])[1..] == s[1..] + [x];
      AppendPreserves(s[1..], x);
    }
  }

  // Adding keeps the map well formed and updates the map it stands for. A
  // sorted map compares keys on the way, which must not overflow.
  lemma AddedUpdates<V>(sorted: bool, s: seq<Item<V>>, k: Value, v: V, c: Class, w: Window)
    requires WellFormed(sorted, s, c) && KeyOf(k, c) && (sorted ==> Within(s, w) && Tame(k, w))
    ensures WellFormed(sorted, Added(sorted, s, k, v), c) && (sorted ==> Within(Added(sorted, s, k, v), w))
    ensures Contents(Added(sorted, s, k, v)) == Contents(s)[k := v]
  {
    WithoutRemoves(sorted, s, k, c);
    if sorted {
      InsertPreserves(Without(s, k), Item(k, v), c, w);
    } else {
      AppendPreserves(Without(s, k), Item(k, v));
    }
    assert (Contents(s) - {k})[k := v] == Contents(s)[k := v];
  }

  // ----- Rebuilding a map

  // The items added one by one to an empty map, in the order given.
  function Rebuilt<V>(sorted: bool, s: seq<Item<V>>): (r: seq<Item<V>>)
    requires Hashable(s)
    ensures forall x | x in r :: x in s
  {
    if s == [] then []
    else
      var x := s[|s| - 1];
      Added(sorted, Rebuilt(sorted, s[..|s| - 1]), x.key, x.val)
  }

  lemma {:induction false} WithoutNothing<V>(s: seq<Item<V>>, x: Item<V>, c: Class)
    requires Keyed(s, c) && KeyOf(x.key, c) && NoKey(s, x.key)
    ensures Without(s, x.key) == s
  {
    hide KeyBytes;
    if s != [] {
      KeysByBytes(s[0].key, x.key);
      WithoutNothing(s[1..], x, c);
    }
  }

  lemma {:induction false} DistinctSnoc<V>(s: seq<Item<V>>, x: Item<V>)
    ensures Distinct(s + [x]) <==> Distinct(s) && NoKey(s, x.key)
  {
    if s == [] {
      assert s + [x] == [x];
    } else {
      assert (s + [x])[1..] == s[1..] + [x] && s == [s[0]] + s[1..];
      DistinctSnoc(s[1..], x);
      assert NoKey(s[1..] + [x], s[0].key) <==> NoKey(s[1..], s[0].key) && x.key != s[0].key;
    }
  }

  lemma {:induction false} AscendingSnoc<V>(s: seq<Item<V>>, x: Item<V>)
    ensures Ascending(s + [x]) <==> Ascending(s) && forall y | y in s :: Compare(y.key, x.key) < 0
  {
    hide Compare;
    if s == [] {
      assert s + [x] == [x];
    } else {
      assert (s + [x])[1..] == s[1..] + [x] && s == [s[0]] + s[1..];
      AscendingSnoc(s[1..], x);
      assert AllAbove(s[1..] + [x], s[0].key) <==> AllAbove(s[1..], s[0].key) && Compare(s[0].key, x.key) < 0;
    }
  }

  // An insertion puts a new item behind p exactly when it is into p and no
  // item of p is greater.
  lemma {:induction false} InsertLastExactly<V>(s: seq<Item<V>>, x: Item<V>, p: seq<Item<V>>)
    requires x !in s && x !in p
    ensures Insert(s, x) == p + [x] <==> s == p && forall y | y in p :: Compare(y.key, x.key) <= 0
  {
    hide Compare;
    if s != [] && p != [] && s[0] == p[0] && Compare(s[0].key, x.key) <= 0 {
      InsertLastExactly(s[1..], x, p[1..]);
      assert p + [x] == [p[0]] + (p[1..] + [x]) && s == [s[0]] + s[1..] && p == [p[0]] + p[1..];
      assert (p + [x])[1..] == p[1..] + [x] && Insert(s, x)[1..] == Insert(s[1..], x);
    } else {
      assert (p + [x])[0] == if p == [] then x else p[0];
    }
  }

  // A map built in its own stored order is that map again if and only if it is
  // not sorted or its order is ascending, whatever comparisons overflow.
  lemma {:induction false} RebuiltExactly<V>(sorted: bool, s: seq<Item<V>>, c: Class)
    requires Keyed(s, c) && Distinct(s)
    ensures Rebuilt(sorted, s) == s <==> sorted ==> Ascending(s)
  {
    hide Compare, KeyBytes, Without, Insert;
    if s != [] {
      var p, x := s[..|s| - 1], s[|s| - 1];
      assert s == p + [x];
      DistinctSnoc(p, x);
      RebuiltExactly(sorted, p, c);
      var r := Rebuilt(sorted, p);
      WithoutNothing(r, x, c);
      if sorted {
        InsertLastExactly(r, x, p);
        AscendingSnoc(p, x);
        NoTies(p, x, c);
      } else {
        assert r + [x] == p + [x] <==> r == p by { assert (r + [x])[..|r|] == r && (p + [x])[..|p|] == p; }
      }
    }
  }

  lemma NoTies<V>(s: seq<Item<V>>, x: Item<V>, c: Class)
    requires Keyed(s, c) && KeyOf(x.key, c) && NoKey(s, x.key)
    ensures forall y | y in s :: Compare(y.key, x.key) != 0
  {
    forall y | y in s ensures Compare(y.key, x.key) != 0 {
      KeysByBytes(y.key, x.key);
      DifferentKeysNeverTie(y.key, x.key);
    }
  }

  // Three numbers that compare in a cycle: added as 0, m, -m to a sorted map
  // they are stored as -m, 0, m, and rebuilt in that order they are m, -m, 0.
  lemma NotRebuilt<V>(v: V)
    ensures var x, y, z := Item(IntV(0), v), Item(IntV(0x6000_0000), v), Item(IntV(-0x6000_0000), v);
      Rebuilt(true, [x, y, z]) == [z, x, y] && Rebuilt(true, [z, x, y]) == [y, z, x]
  {
    var x, y, z := Item(IntV(0), v), Item(IntV(0x6000_0000), v), Item(IntV(-0x6000_0000), v);
    assert Compare(x.key, y.key) < 0 && Compare(y.key, z.key) < 0 && Compare(z.key, x.key) < 0
      && Compare(x.key, z.key) > 0;
    assert Compare(z.key, y.key) > 0;
    hide Compare, Rebuilt, Insert;
    ThreeRebuilt(x, y, z);
    ThreeRebuilt(z, x, y);
    InsertSecond(x, y);
    InsertSecond(z, x);
    InsertThird(x, y, z);
    InsertThird(z, x, y);
  }

  lemma InsertSecond<V>(a: Item<V>, b: Item<V>)
    requires Compare(a.key, b.key) < 0
    ensures Insert([a], b) == [a, b]
  {
    hide Compare;
    assert [a][1..] == [];
  }

  lemma InsertThird<V>(a: Item<V>, b: Item<V>, c: Item<V>)
    requires Compare(a.key, c.key) > 0
    ensures Insert([a, b], c) == [c, a, b]
  {
    hide Compare;
  }

  lemma InsertFirst<V>(x: Item<V>)
    ensures Insert([], x) == [x]
  {}

  lemma ThreeRebuilt<V>(a: Item<V>, b: Item<V>, c: Item<V>)
    requires a.key.IntV? && b.key.IntV? && c.key.IntV? && a.key != b.key && a.key != c.key && b.key != c.key
    ensures Rebuilt(true, [a, b, c]) == Insert(Insert([a], b), c)
  {
    hide KeyBytes, Compare, Insert;
    assert [a, b, c][..2] == [a, b] && [a, b][..1] == [a] && [a][..0] == [];
    InsertFirst(a);
    assert Rebuilt(true, [a]) == [a];
    WithoutNothing([a], b, MMInt);
    WithoutNothing(Insert([a], b), c, MMInt);
  }

  // ----- Sorted maps are canonical

  // Two ascending sequences with the same contents are the same sequence.
  lemma {:induction false} ContentsDetermineOrder<V>(s: seq<Item<V>>, t: seq<Item<V>>, c: Class, w: Window)
    requires WellFormed(true, s, c) && WellFormed(true, t, c) && Within(s, w) && Within(t, w)
    requires Contents(s) == Contents(t)
    ensures s == t
  {
    if s == [] {
      HeadIsContained(t);
    } else {
      ContentsKeys(s, s[0].key);
      ContentsKeys(t, s[0].key);
      assert s[0] in s;
      ContentsKeys(s, t[0].key);
      ContentsKeys(t, t[0].key);
      SmallestFirst(s, t, w);
      TailContents(s);
      TailContents(t);
      ContentsDetermineOrder(s[1..], t[1..], c, w);
      assert s == [s[0]] + s[1..] && t == [t[0]] + t[1..];
    }
  }

  lemma HeadIsContained<V>(s: seq<Item<V>>)
    ensures s != [] ==> s[0].key in Contents(s)
  {}

  lemma TailContents<V>(s: seq<Item<V>>)
    requires s != [] && Distinct(s)
    ensures Contents(s[1..]) == Contents(s) - {s[0].key}
    ensures Contents(s)[s[0].key] == s[0].val
  {
    ContentsKeys(s[1..], s[0].key);
  }

  lemma SmallestFirst<V>(s: seq<Item<V>>, t: seq<Item<V>>, w: Window)
    requires s != [] && t != [] && Ascending(s) && Ascending(t) && Within(s, w) && Within(t, w)
    requires !NoKey(s, t[0].key) && !NoKey(t, s[0].key)
    ensures s[0].key == t[0].key
  {
    if s[0].key != t[0].key {
      var x :| x in s && x.key == t[0].key;
      var y :| y in t && y.key == s[0].key;
      assert x in s[1..] && y in t[1..];
      KeyOrder(s[0].key, t[0].key, w);
    }
  }

  datatype Op<V> = Add(key: Value, val: V) | Remove(key: Value)

  // Keys of one class, and inside w when the map is sorted.
  ghost predicate OpsKeyed<V>(sorted: bool, ops: seq<Op<V>>, c: Class, w: Window)
  {
    forall op | op in ops :: KeyOf(op.key, c) && (sorted ==> Tame(op.key, w))
  }

  // A history, run on the items of a map and on a plain finite map.
  ghost function Run<V>(sorted: bool, ops: seq<Op<V>>, c: Class, w: Window): (s: seq<Item<V>>)
    requires OpsKeyed(sorted, ops, c, w)
    ensures WellFormed(sorted, s, c) && (sorted ==> Within(s, w)) && Contents(s) == RunPlain(ops)
  {
    if ops == [] then []
    else
      var s := Run(sorted, ops[..|ops| - 1], c, w);
      OpOnItems(sorted, s, ops[|ops| - 1], c, w)
  }

  ghost function OpOnItems<V>(sorted: bool, s: seq<Item<V>>, op: Op<V>, c: Class, w: Window): (r: seq<Item<V>>)
    requires WellFormed(sorted, s, c) && KeyOf(op.key, c) && (sorted ==> Within(s, w) && Tame(op.key, w))
    ensures WellFormed(sorted, r, c) && (sorted ==> Within(r, w)) && Contents(r) == OpPlain(Contents(s), op)
  {
    match op
    case Add(k, v) => AddedUpdates(sorted, s, k, v, c, w); Added(sorted, s, k, v)
    case Remove(k) => WithoutRemoves(sorted, s, k, c); Without(s, k)
  }

  ghost function RunPlain<V>(ops: seq<Op<V>>): map<Value, V>
  {
    if ops == [] then map[] else OpPlain(RunPlain(ops[..|ops| - 1]), ops[|ops| - 1])
  }

  ghost function OpPlain<V>(m: map<Value, V>, op: Op<V>): map<Value, V>
  {
    match op
    case Add(k, v) => m[k := v]
    case Remove(k) => m - {k}
  }

  // Two sorted maps with equal contents, whatever their histories, have one
  // and the same item order, and compare as 0.
  lemma SortedMapsAreCanonical(ops: seq<Op<Value>>, ops': seq<Op<Value>>, c: Class, w: Window)
    requires OpsKeyed(true, ops, c, w) && OpsKeyed(true, ops', c, w)
    requires RunPlain(ops) == RunPlain(ops')
    ensures Run(true, ops, c, w) == Run(true, ops', c, w)
    ensures Compare(AsValue(Run(true, ops, c, w)), AsValue(Run(true, ops', c, w))) == 0
  {
    ContentsDetermineOrder(Run(true, ops, c, w), Run(true, ops', c, w), c, w);
    SelfCompare(AsValue(Run(true, ops, c, w)));
  }

  function AsValue(s: seq<Item<Value>>): Value
  {
    MapV(seq(|s|, i requires 0 <= i < |s| => Entry(s[i].key, s[i].val)))
  }

  // ----- The class

  class MMMap<V> {
    var sorted: bool
    var items: seq<Item<V>>

    constructor (sorted: bool)
      ensures this.sorted == sorted && items == []
    {
      this.sorted := sorted;
      items := [];
    }

    // HASH_FIND on the hash table: MapTables shows that it finds the same item.
    method HashFind(k: Value) returns (i: nat)
      requires IsKey(k) && Hashable(items)
      ensures i == Find(items, k)
    {
      i := 0;
      assert items[0..] == items;
      while i < |items| && KeyBytes(items[i].key) != KeyBytes(k)
        invariant 0 <= i <= |items| && Find(items, k) == i + Find(items[i..], k)
      {
        assert items[i..][1..] == items[i + 1..];
        i := i + 1;
      }
    }

    method AddItem(k: Value, v: V)
      requires IsKey(k) && Hashable(items)
      modifies `items
      ensures items == Added(sorted, old(items), k, v)
      ensures !sorted ==>
        items != [] && items[|items| - 1] == Item(k, v) && items[..|items| - 1] == Without(old(items), k)
    {
      var i := HashFind(k);
      FindIsWithout(items, k);
      if i < |items| {
        items := items[..i] + items[i + 1..];
      }
      if sorted {
        InsertInOrder(Item(k, v));
      } else {
        items := items + [Item(k, v)];
      }
    }

    method InsertInOrder(x: Item<V>)
      modifies `items
      ensures items == Insert(old(items), x)
    {
      hide Compare;
      var i := 0;
      ghost var s := items;
      assert s[..0] + Insert(s[0..], x) == Insert(s, x);
      while i < |items| && Compare(items[i].key, x.key) <= 0
        invariant 0 <= i <= |s| && items == s
        invariant Insert(s, x) == s[..i] + Insert(s[i..], x)
      {
        InsertStep(s, x, i);
        i := i + 1;
      }
      items := items[..i] + [x] + items[i..];
      InsertStop(s, x, i);
    }

    method RemoveItem(k: Value)
      requires IsKey(k) && Hashable(items)
      modifies `items
      ensures items == Without(old(items), k)
    {
      var i := HashFind(k);
      FindIsWithout(items, k);
      if i == |items| { return; }
      items := items[..i] + items[i + 1..];
    }

    method GetItemValue(k: Value, ghost c: Class) returns (found: bool, i: nat)
      requires Keyed(items, c) && Distinct(items) && KeyOf(k, c)
      ensures found == (k in Contents(items))
      ensures found ==> i < |items| && Contents(items)[k] == items[i].val
    {
      i := HashFind(k);
      FindIsContents(items, k, c);
      found := i < |items|;
    }
  }

  lemma OneTakenOut<T>(s: seq<T>, i: nat)
    requires s != []
    ensures [s[0]] + s[1..] == s
    ensures i < |s[1..]| ==> [s[0]] + (s[1..][..i] + s[1..][i + 1..]) == s[..i + 1] + s[i + 2..]
  {}

  lemma {:induction false} FindIsWithout<V>(s: seq<Item<V>>, k: Value)
    requires IsKey(k) && Hashable(s)
    ensures var i := Find(s, k);
      Without(s, k) == if i < |s| then s[..i] + s[i + 1..] else s
  {
    hide KeyBytes;
    if s != [] && KeyBytes(s[0].key) != KeyBytes(k) {
      FindIsWithout(s[1..], k);
      OneTakenOut(s, Find(s[1..], k));
    }
  }

  lemma {:induction false} FindIsContents<V>(s: seq<Item<V>>, k: Value, c: Class)
    requires Keyed(s, c) && Distinct(s) && KeyOf(k, c)
    ensures Find(s, k) < |s| <==> k in Contents(s)
    ensures Find(s, k) < |s| ==> Contents(s)[k] == s[Find(s, k)].val
  {
    if s != [] {
      KeysByBytes(s[0].key, k);
      FindIsContents(s[1..], k, c);
      if s[0].key == k { TailContents(s); }
    }
  }

  lemma InsertStep<V>(s: seq<Item<V>>, x: Item<V>, i: nat)
    requires i < |s| && Compare(s[i].key, x.key) <= 0
    ensures s[..i] + Insert(s[i..], x) == s[..i + 1] + Insert(s[i + 1..], x)
  {
    hide Compare;
    assert s[i..][1..] == s[i + 1..];
    assert s[..i + 1] == s[..i] + [s[i]];
  }

  lemma InsertStop<V>(s: seq<Item<V>>, x: Item<V>, i: nat)
    requires i <= |s| && (i < |s| ==> Compare(s[i].key, x.key) > 0)
    ensures s[..i] + Insert(s[i..], x) == s[..i] + [x] + s[i..]
  {}
}
