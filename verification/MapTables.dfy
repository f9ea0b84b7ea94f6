// The items of a map are the entries of its hash table: what the map does to
// its items is what the table does to its entries.

module MapTables {
  import opened Comparison
  import opened Maps
  import HashLists
  import HashTables
  import HashRuns
  import opened Options

  // An item under the bytes that its key is hashed by.
  function AsEntries<V>(s: seq<Item<V>>): (r: seq<(HashRuns.Key, Item<V>)>)
    requires Hashable(s)
    ensures |r| == |s| && forall i :: 0 <= i < |r| ==> r[i] == (KeyBytes(s[i].key), s[i])
  {
    seq(|s|, i requires 0 <= i < |s| => (KeyBytes(s[i].key), s[i]))
  }

  // compare_mmobjs of two map items, as far as it gets: the keys never tie.
  function CompareItems<V>(a: Item<V>, b: Item<V>): int { Compare(a.key, b.key) }

  lemma {:induction false} FindAgrees<V>(s: seq<Item<V>>, k: Value)
    requires IsKey(k) && Hashable(s)
    ensures Find(s, k) == HashRuns.Place(AsEntries(s), KeyBytes(k))
  {
    if s != [] {
      assert AsEntries(s)[1..] == AsEntries(s[1..]);
      FindAgrees(s[1..], k);
    }
  }

  lemma WithoutAgrees<V>(s: seq<Item<V>>, k: Value)
    requires IsKey(k) && Hashable(s)
    ensures AsEntries(Without(s, k)) == HashRuns.Without(AsEntries(s), KeyBytes(k))
  {
    hide Maps.Without, HashRuns.Place, KeyBytes, Hashable;
    FindAgrees(s, k);
    FindIsWithout(s, k);
    var i := Find(s, k);
    if i < |s| { EntriesOfRemoved(s, i); }
  }

  lemma EntriesOfRemoved<V>(s: seq<Item<V>>, i: nat)
    requires Hashable(s) && i < |s|
    ensures Hashable(s[..i] + s[i + 1..]) && AsEntries(s[..i] + s[i + 1..]) == HashLists.Removed(AsEntries(s), i)
  {}

  lemma {:induction false} InsertAgrees<V>(s: seq<Item<V>>, x: Item<V>)
    ensures Insert(s, x) == HashLists.Inserted(s, HashTables.Pos(s, x, CompareItems), x)
  {
    if s != [] && Compare(s[0].key, x.key) <= 0 {
      InsertAgrees(s[1..], x);
      var k := HashTables.Pos(s[1..], x, CompareItems);
      assert s == [s[0]] + s[1..];
      assert HashLists.Inserted(s, k + 1, x) == [s[0]] + HashLists.Inserted(s[1..], k, x);
    }
  }

  // addMMMapItem is one HASH_REPLACE, ordered or not, and removeMMMapItem one
  // deletion, on the table's plain sequence of entries.
  lemma AddedAgrees<V>(sorted: bool, s: seq<Item<V>>, k: Value, v: V)
    requires IsKey(k) && Hashable(s)
    ensures AsEntries(Added(sorted, s, k, v))
         == HashRuns.After(AsEntries(s), HashRuns.Replace(KeyBytes(k), Item(k, v), sorted), CompareItems)
  {
    var rest, x := Without(s, k), Item(k, v);
    WithoutAgrees(s, k);
    assert HashRuns.Values(AsEntries(rest)) == rest;
    if sorted {
      InsertAgrees(rest, x);
      EntriesOfInserted(rest, HashTables.Pos(rest, x, CompareItems), x);
    } else {
      assert rest + [x] == HashLists.Inserted(rest, |rest|, x);
      EntriesOfInserted(rest, |rest|, x);
    }
  }

  lemma EntriesOfInserted<V>(s: seq<Item<V>>, p: nat, x: Item<V>)
    requires Hashable(s) && IsKey(x.key) && p <= |s|
    ensures Hashable(HashLists.Inserted(s, p, x))
    ensures AsEntries(HashLists.Inserted(s, p, x)) == HashLists.Inserted(AsEntries(s), p, (KeyBytes(x.key), x))
  {}

  // A lookup in the table finds what the map finds.
  lemma LookupAgrees<V>(s: seq<Item<V>>, k: Value)
    requires IsKey(k) && Hashable(s)
    ensures HashRuns.Got(AsEntries(s), KeyBytes(k)) == if Find(s, k) < |s| then Some(s[Find(s, k)]) else None
  {
    FindAgrees(s, k);
  }
}
