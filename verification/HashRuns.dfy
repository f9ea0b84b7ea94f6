// A hash table refines a plain sequence of entries and a plain finite map: over
// any sequence of operations, and whatever the hash function.

module HashRuns {
  import opened Options
  import opened HashLists
  import opened HashTables
  import opened Merging
  import opened HashSorts
  import opened StableSorts

  type Key = seq<int>

  // HASH_REPLACE and HASH_REPLACE_INORDER, a find followed by HASH_DELETE,
  // HASH_FIND, and HASH_SRT.
  datatype Op<!T> =
    | Replace(key: Key, elem: T, ordered: bool)
    | Remove(key: Key)
    | Lookup(key: Key)
    | Sort(ord: (T, T) -> int)

  // A sort needs a comparison that orders.
  ghost predicate Allowed<T(!new)>(op: Op<T>) { op.Sort? ==> Orders(op.ord) }

  // The index of the first entry with the key, or the length.
  function Place<T>(s: seq<(Key, T)>, key: Key): (k: nat)
    ensures k <= |s| && (k < |s| ==> s[k].0 == key) && forall i :: 0 <= i < k ==> s[i].0 != key
  {
    if s == [] || s[0].0 == key then 0 else 1 + Place(s[1..], key)
  }

  function Got<T>(s: seq<(Key, T)>, key: Key): Option<T>
  {
    var k := Place(s, key);
    if k < |s| then Some(s[k].1) else None
  }

  function Without<T>(s: seq<(Key, T)>, key: Key): seq<(Key, T)>
  {
    var k := Place(s, key);
    if k < |s| then Removed(s, k) else s
  }

  function Values<T>(s: seq<(Key, T)>): (r: seq<T>)
    ensures |r| == |s| && forall i :: 0 <= i < |r| ==> r[i] == s[i].1
  {
    seq(|s|, i requires 0 <= i < |s| => s[i].1)
  }

  // The entries inserted in order, one after the other.
  function Arranged<T>(s: seq<(Key, T)>, cmp: (T, T) -> int): (r: seq<(Key, T)>)
    ensures |r| == |s|
  {
    if s == [] then []
    else
      var r, x := Arranged(s[..|s| - 1], cmp), s[|s| - 1];
      Inserted(r, Pos(Values(r), x.1, cmp), x)
  }

  // What an operation answers on a plain sequence.
  function Reply<T>(s: seq<(Key, T)>, op: Op<T>): Option<T> { if op.Sort? then None else Got(s, op.key) }

  // An operation on a plain sequence of entries.
  function After<T>(s: seq<(Key, T)>, op: Op<T>, cmp: (T, T) -> int): seq<(Key, T)>
  {
    match op
    case Lookup(_) => s
    case Sort(ord) => Arranged(s, ord)
    case Remove(key) => Without(s, key)
    case Replace(key, elem, ordered) =>
      var rest := Without(s, key);
      Inserted(rest, if ordered then Pos(Values(rest), elem, cmp) else |rest|, (key, elem))
  }

  // ... and on a plain finite map.
  function AfterOnMap<T>(m: map<Key, T>, op: Op<T>): map<Key, T>
  {
    match op
    case Lookup(_) => m
    case Sort(_) => m
    case Remove(key) => m - {key}
    case Replace(key, elem, _) => m[key := elem]
  }

  function AfterAll<T>(ops: seq<Op<T>>, cmp: (T, T) -> int): seq<(Key, T)>
  {
    if ops == [] then [] else After(AfterAll(ops[..|ops| - 1], cmp), ops[|ops| - 1], cmp)
  }

  function MapAfterAll<T>(ops: seq<Op<T>>): map<Key, T>
  {
    if ops == [] then map[] else AfterOnMap(MapAfterAll(ops[..|ops| - 1]), ops[|ops| - 1])
  }

  // The entries of a list of items.
  function Entries<T(!new)>(s: seq<Handle<T>>): (r: seq<(Key, T)>)
    reads s`key
    ensures |r| == |s| && forall i :: 0 <= i < |r| ==> r[i] == (s[i].key, s[i].elem)
  {
    if s == [] then [] else [(s[0].key, s[0].elem)] + Entries(s[1..])
  }

  // What was found is the only entry with the key.
  lemma FoundIsPlace<T(!new)>(s: seq<Handle<T>>, hash: Key -> nat, key: Key, out: Handle?<T>)
    requires Keys(s, hash) && Finds(s, key, out)
    ensures out == At(s, Place(Entries(s), key))
    ensures Got(Entries(s), key) == if out == null then None else Some(out.elem)
  {
    var k := Place(Entries(s), key);
    if k < |s| { assert s[k] in s; }
    if out != null {
      var i :| 0 <= i < |s| && s[i] == out;
      assert Entries(s)[i].0 == key;
    }
  }

  // Looks the key up and takes its item out, if there is one.
  method RemoveKey<T(!new)>(t: HashTable<T>, key: Key) returns (found: Option<T>)
    requires t.Valid()
    modifies t, t.buckets, t.order`next, t.order`prev, t.order`hhNext, t.order`hhPrev
    ensures t.Valid() && t.buckets == old(t.buckets) && forall i :: 0 <= i < |t.order| ==> t.order[i] in old(t.order)
    ensures Entries(t.order) == Without(old(Entries(t.order)), key) && found == Got(old(Entries(t.order)), key)
    ensures Finds(t.order, key, null)
  {
    hide t.Valid, Finds, Place, Entries, Removed;
    var out := t.Find(key);
    FoundInTable(t, key, out);
    if out == null { return None; }
    ghost var k := Place(Entries(t.order), key);
    KeyIsGone(t.order, t.hash, k);
    EntriesRemoved(t.order, k);
    t.Delete(out, k);
    found := Some(out.elem);
  }

  lemma FoundInTable<T(!new)>(t: HashTable<T>, key: Key, out: Handle?<T>)
    requires t.Valid() && Finds(t.order, key, out)
    ensures var k := Place(Entries(t.order), key);
      if out == null then k == |t.order| else k < |t.order| && t.order[k] == out && out.key == key
    ensures Got(Entries(t.order), key) == if out == null then None else Some(out.elem)
    ensures Keys(t.order, t.hash)
  {
    FoundIsPlace(t.order, t.hash, key, out);
  }

  lemma EntriesRemoved<T(!new)>(s: seq<Handle<T>>, k: nat)
    requires k < |s|
    ensures Entries(Removed(s, k)) == Removed(Entries(s), k)
    ensures forall i :: 0 <= i < |Removed(s, k)| ==> Removed(s, k)[i] in s
  {
    var r, e := Entries(Removed(s, k)), Removed(Entries(s), k);
    assert |r| == |e| && forall i :: 0 <= i < |r| ==> r[i] == e[i];
  }

  lemma KeyIsGone<T(!new)>(s: seq<Handle<T>>, hash: Key -> nat, k: nat)
    requires Keys(s, hash) && k < |s|
    ensures Finds(Removed(s, k), s[k].key, null)
  {
    forall h | h in Removed(s, k) ensures h.key != s[k].key {
      var i :| 0 <= i < |Removed(s, k)| && Removed(s, k)[i] == h;
      assert h == s[if i < k then i else i + 1];
    }
  }

  // HASH_REPLACE or HASH_REPLACE_INORDER with a new item.
  method ReplaceKey<T(!new)>(t: HashTable<T>, key: Key, elem: T, ordered: bool, cmp: (T, T) -> int)
    returns (found: Option<T>)
    requires t.Valid()
    modifies t, t.buckets, t.order`next, t.order`prev, t.order`hhNext, t.order`hhPrev
    ensures t.Valid() && (t.buckets == old(t.buckets) || fresh(t.buckets))
    ensures forall i :: 0 <= i < |t.order| ==> t.order[i] in old(t.order) || fresh(t.order[i])
    ensures Entries(t.order) == After(old(Entries(t.order)), Replace(key, elem, ordered), cmp)
    ensures found == Got(old(Entries(t.order)), key)
  {
    hide t.Valid, Finds, Place, Entries, Inserted, Pos, Got, Without;
    found := RemoveKey(t, key);
    var x := new Handle(elem);
    ghost var s := t.order;
    if ordered {
      ElemsAreValues(s);
      t.AddInOrder(x, key, cmp);
      EntriesInserted(s, Pos(Values(Entries(s)), elem, cmp), x);
    } else {
      t.Add(x, key);
      Appended(s, x);
      EntriesInserted(s, |s|, x);
    }
  }

  lemma Appended<T(!new)>(s: seq<Handle<T>>, x: Handle<T>)
    ensures s + [x] == Inserted(s, |s|, x) && |Entries(s)| == |s|
  {}

  lemma ElemsAreValues<T(!new)>(s: seq<Handle<T>>)
    ensures Elems(s) == Values(Entries(s))
  {}

  lemma EntriesInserted<T(!new)>(s: seq<Handle<T>>, k: nat, x: Handle<T>)
    requires k <= |s|
    ensures Entries(Inserted(s, k, x)) == Inserted(Entries(s), k, (x.key, x.elem))
    ensures forall i :: 0 <= i < |Inserted(s, k, x)| ==> Inserted(s, k, x)[i] in s || Inserted(s, k, x)[i] == x
  {
    var r, e := Entries(Inserted(s, k, x)), Inserted(Entries(s), k, (x.key, x.elem));
    assert |r| == |e| && forall i :: 0 <= i < |r| ==> r[i] == e[i];
  }

  lemma {:induction false} EntriesArranged<T(!new)>(s: seq<Handle<T>>, cmp: (T, T) -> int)
    ensures Entries(InsertionSort(s, cmp)) == Arranged(Entries(s), cmp)
  {
    hide Inserted, Pos;
    if s != [] {
      var p, x := s[..|s| - 1], s[|s| - 1];
      EntriesArranged(p, cmp);
      var r := InsertionSort(p, cmp);
      assert Entries(s)[..|s| - 1] == Entries(p);
      ElemsAreValues(r);
      EntriesInserted(r, Pos(Elems(r), x.elem, cmp), x);
    }
  }

  // HASH_SRT
  method SortEntries<T(!new)>(t: HashTable<T>, ord: (T, T) -> int)
    requires t.Valid() && Orders(ord)
    modifies t`head, t`tail, t`order, t.order`next, t.order`prev
    ensures t.Valid() && Entries(t.order) == Arranged(old(Entries(t.order)), ord)
    ensures forall i :: 0 <= i < |t.order| ==> t.order[i] in old(t.order)
  {
    hide t.Valid, Entries, InsertionSort, Merging.Sort, Orders;
    ghost var s := t.order;
    SameItemsOfSort(s, ord);
    SortIsInsertionSort(s, ord);
    EntriesArranged(s, ord);
    SortTable(t, ord);
    assert forall i :: 0 <= i < |t.order| ==> t.order[i] in t.order;
  }

  // One operation on the table: the answer is what was found before it.
  method Apply<T(!new)>(t: HashTable<T>, op: Op<T>, cmp: (T, T) -> int) returns (answer: Option<T>)
    requires t.Valid() && Allowed(op)
    modifies t, t.buckets, t.order`next, t.order`prev, t.order`hhNext, t.order`hhPrev
    ensures t.Valid() && (t.buckets == old(t.buckets) || fresh(t.buckets))
    ensures forall i :: 0 <= i < |t.order| ==> t.order[i] in old(t.order) || fresh(t.order[i])
    ensures Entries(t.order) == After(old(Entries(t.order)), op, cmp) && answer == Reply(old(Entries(t.order)), op)
  {
    hide t.Valid, Finds, Place, Entries, Got, Without, Arranged, Orders;
    match op
    case Sort(ord) =>
      SortEntries(t, ord);
      answer := None;
    case Replace(key, elem, ordered) => answer := ReplaceKey(t, key, elem, ordered, cmp);
    case Remove(key) => answer := RemoveKey(t, key);
    case Lookup(key) =>
      var out := t.Find(key);
      FoundInTable(t, key, out);
      answer := if out == null then None else Some(out.elem);
  }

  // Over any run from the empty table, every answer is the plain map's, and
  // the list holds the plain sequence's entries in its order.
  method Replay<T(!new)>(hash: Key -> nat, ops: seq<Op<T>>, cmp: (T, T) -> int)
    returns (t: HashTable<T>, answers: seq<Option<T>>)
    requires forall i :: 0 <= i < |ops| ==> Allowed(ops[i])
    ensures fresh(t) && t.Valid() && Entries(t.order) == AfterAll(ops, cmp)
    ensures |answers| == |ops| && Answered(ops, answers)
  {
    hide Entries, Reply, After, AfterAll, Answered, Allowed;
    t := new HashTable(hash);
    answers := [];
    NothingYet(t.order, ops, cmp);
    hide t.Valid;
    for n := 0 to |ops|
      invariant fresh(t) && fresh(t.buckets) && forall i :: 0 <= i < |t.order| ==> fresh(t.order[i])
      invariant t.Valid() && Entries(t.order) == AfterAll(ops[..n], cmp)
      invariant |answers| == n && Answered(ops, answers)
    {
      OneMoreOp(ops, answers, cmp);
      var answer := Apply(t, ops[n], cmp);
      answers := answers + [answer];
    }
    assert ops[..|ops|] == ops;
  }

  // Each answer is what the plain map holds when the operation comes.
  ghost predicate Answered<T>(ops: seq<Op<T>>, answers: seq<Option<T>>)
  {
    |answers| <= |ops|
    && forall i :: 0 <= i < |answers| ==> answers[i] == ReplyOnMap(MapAfterAll(ops[..i]), ops[i])
  }

  lemma NothingYet<T(!new)>(s: seq<Handle<T>>, ops: seq<Op<T>>, cmp: (T, T) -> int)
    ensures (s == [] ==> Entries(s) == AfterAll(ops[..0], cmp)) && Answered(ops, [])
  {}

  function Answer<T>(m: map<Key, T>, key: Key): Option<T> { if key in m then Some(m[key]) else None }

  function ReplyOnMap<T>(m: map<Key, T>, op: Op<T>): Option<T> { if op.Sort? then None else Answer(m, op.key) }

  lemma OneMoreOp<T(!new)>(ops: seq<Op<T>>, answers: seq<Option<T>>, cmp: (T, T) -> int)
    requires Answered(ops, answers) && |answers| < |ops|
    ensures var n := |answers|;
      AfterAll(ops[..n + 1], cmp) == After(AfterAll(ops[..n], cmp), ops[n], cmp)
      && Answered(ops, answers + [Reply(AfterAll(ops[..n], cmp), ops[n])])
  {
    hide Got, After, Place;
    var n := |answers|;
    assert ops[..n + 1][..n] == ops[..n];
    EntriesMeanMap(ops[..n], cmp);
    if !ops[n].Sort? { GotIsAnswer(AfterAll(ops[..n], cmp), MapAfterAll(ops[..n]), ops[n].key); }
  }

  // ----- Sequence and map agree

  ghost predicate Means<T(!new)>(s: seq<(Key, T)>, m: map<Key, T>)
  {
    (forall i, j :: 0 <= i < j < |s| ==> s[i].0 != s[j].0)
    && (forall i :: 0 <= i < |s| ==> s[i].0 in m && m[s[i].0] == s[i].1)
    && forall key :: key in m ==> Place(s, key) < |s|
  }

  lemma GotIsAnswer<T(!new)>(s: seq<(Key, T)>, m: map<Key, T>, key: Key)
    requires Means(s, m)
    ensures Got(s, key) == Answer(m, key)
  {}

  lemma WithoutEntry<T(!new)>(s: seq<(Key, T)>, key: Key, i: nat)
    requires Place(s, key) < |s| && i < |s| - 1
    ensures |Without(s, key)| == |s| - 1 && Without(s, key)[i] == s[if i < Place(s, key) then i else i + 1]
  {}

  lemma WithoutLength<T(!new)>(s: seq<(Key, T)>, key: Key)
    ensures Place(s, key) < |s| ==> |Without(s, key)| == |s| - 1
    ensures Place(s, key) == |s| ==> Without(s, key) == s
  {}

  lemma WithoutMeans<T(!new)>(s: seq<(Key, T)>, m: map<Key, T>, key: Key)
    requires Means(s, m)
    ensures Means(Without(s, key), m - {key})
  {
    hide Without;
    WithoutLength(s, key);
    var k, t := Place(s, key), Without(s, key);
    if k < |s| {
      WithoutAgrees(s, m, key);
      forall x | x in m - {key} ensures Place(t, x) < |t| {
        var j := Place(s, x);
        WithoutEntry(s, key, if j < k then j else j - 1);
        assert t[if j < k then j else j - 1].0 == x;
      }
    }
  }

  lemma WithoutAgrees<T(!new)>(s: seq<(Key, T)>, m: map<Key, T>, key: Key)
    requires Means(s, m) && Place(s, key) < |s|
    ensures forall i :: 0 <= i < |Without(s, key)| ==>
      Without(s, key)[i].0 in m - {key} && m[Without(s, key)[i].0] == Without(s, key)[i].1
    ensures forall i, j :: 0 <= i < j < |Without(s, key)| ==> Without(s, key)[i].0 != Without(s, key)[j].0
  {
    hide Without;
    WithoutLength(s, key);
    var t := Without(s, key);
    forall i | 0 <= i < |t| ensures t[i].0 in m - {key} && m[t[i].0] == t[i].1 { WithoutEntry(s, key, i); }
    forall i, j | 0 <= i < j < |t| ensures t[i].0 != t[j].0 {
      WithoutEntry(s, key, i);
      WithoutEntry(s, key, j);
    }
  }

  lemma InsertedEntry<T(!new)>(s: seq<(Key, T)>, k: nat, x: (Key, T), i: nat)
    requires k <= |s| && i <= |s|
    ensures |Inserted(s, k, x)| == |s| + 1
    ensures Inserted(s, k, x)[i] == if i < k then s[i] else if i == k then x else s[i - 1]
  {}

  lemma InsertedMeans<T(!new)>(s: seq<(Key, T)>, m: map<Key, T>, k: nat, key: Key, elem: T)
    requires Means(s, m) && k <= |s| && key !in m
    ensures Means(Inserted(s, k, (key, elem)), m[key := elem])
  {
    hide Inserted;
    var x := (key, elem);
    var t := Inserted(s, k, x);
    InsertedEntry(s, k, x, 0);
    forall i | 0 <= i < |t| ensures t[i].0 in m[key := elem] && m[key := elem][t[i].0] == t[i].1 {
      InsertedEntry(s, k, x, i);
    }
    forall i, j | 0 <= i < j < |t| ensures t[i].0 != t[j].0 {
      InsertedEntry(s, k, x, i);
      InsertedEntry(s, k, x, j);
    }
    forall y | y in m[key := elem] ensures Place(t, y) < |t| {
      var j := if y == key then k else var j := Place(s, y); if j < k then j else j + 1;
      InsertedEntry(s, k, x, j);
      assert t[j].0 == y;
    }
  }

  lemma PrefixMeans<T(!new)>(s: seq<(Key, T)>, m: map<Key, T>)
    requires Means(s, m) && s != []
    ensures var x := s[|s| - 1]; Means(s[..|s| - 1], m - {x.0}) && x.0 in m && m[x.0] == x.1
  {
    var p, x := s[..|s| - 1], s[|s| - 1];
    forall key | key in m - {x.0} ensures Place(p, key) < |p| {
      assert p[Place(s, key)].0 == key;
    }
  }

  // Reordering the entries changes nothing in the map they stand for.
  lemma {:induction false} ArrangedMeans<T(!new)>(s: seq<(Key, T)>, m: map<Key, T>, cmp: (T, T) -> int)
    requires Means(s, m)
    ensures Means(Arranged(s, cmp), m)
  {
    hide Means, Inserted, Pos;
    if s != [] {
      var p, x := s[..|s| - 1], s[|s| - 1];
      PrefixMeans(s, m);
      ArrangedMeans(p, m - {x.0}, cmp);
      var r := Arranged(p, cmp);
      InsertedMeans(r, m - {x.0}, Pos(Values(r), x.1, cmp), x.0, x.1);
      assert (m - {x.0})[x.0 := x.1] == m;
    }
  }

  lemma {:induction false} EntriesMeanMap<T(!new)>(ops: seq<Op<T>>, cmp: (T, T) -> int)
    ensures Means(AfterAll(ops, cmp), MapAfterAll(ops))
  {
    if ops != [] {
      EntriesMeanMap(ops[..|ops| - 1], cmp);
      var s, m, op := AfterAll(ops[..|ops| - 1], cmp), MapAfterAll(ops[..|ops| - 1]), ops[|ops| - 1];
      match op
      case Lookup(_) =>
      case Sort(ord) => ArrangedMeans(s, m, ord);
      case Remove(key) => WithoutMeans(s, m, key);
      case Replace(key, elem, ordered) =>
        WithoutMeans(s, m, key);
        var rest := Without(s, key);
        InsertedMeans(rest, m - {key}, if ordered then Pos(Values(rest), elem, cmp) else |rest|, key, elem);
        assert (m - {key})[key := elem] == m[key := elem];
    }
  }
}
