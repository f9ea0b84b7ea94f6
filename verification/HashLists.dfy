// The two intrusive lists of a hash table: all items in application order, and
// the items of one bucket.

module HashLists {
  // A UT_hash_handle with its element.
  class Handle<T> {
    var prev: Handle?<T>
    var next: Handle?<T>
    var hhPrev: Handle?<T>
    var hhNext: Handle?<T>
    var key: seq<int>
    var hashv: nat
    const elem: T

    constructor (elem: T)
      ensures this.elem == elem
    {
      this.elem := elem;
      prev, next, hhPrev, hhNext := null, null, null, null;
      key, hashv := [], 0;
    }
  }

  ghost function At<T>(s: seq<Handle<T>>, i: int): Handle?<T> { if 0 <= i < |s| then s[i] else null }

  ghost predicate Distinct<T(!new)>(s: seq<Handle<T>>)
  {
    forall i, j :: 0 <= i < j < |s| ==> s[i] != s[j]
  }

  // ----- Application order

  ghost predicate NextLinked<T(!new)>(s: seq<Handle<T>>)
    reads s`next
  {
    forall i :: 0 <= i < |s| ==> s[i].next == At(s, i + 1)
  }

  ghost predicate PrevLinked<T(!new)>(s: seq<Handle<T>>)
    reads s`prev
  {
    forall i :: 0 <= i < |s| ==> s[i].prev == At(s, i - 1)
  }

  ghost predicate Linked<T(!new)>(s: seq<Handle<T>>)
    reads s`next, s`prev
  {
    Distinct(s) && NextLinked(s) && PrevLinked(s)
  }

  // ----- Bucket order

  ghost predicate Chained<T(!new)>(s: seq<Handle<T>>)
    reads s`hhNext, s`hhPrev
  {
    Distinct(s)
    && (forall i :: 0 <= i < |s| ==> s[i].hhNext == At(s, i + 1))
    && (forall i :: 0 <= i < |s| ==> s[i].hhPrev == At(s, i - 1))
  }

  function Removed<T>(s: seq<T>, k: nat): seq<T>
    requires k < |s|
  {
    s[..k] + s[k + 1..]
  }

  function Inserted<T>(s: seq<T>, k: nat, x: T): seq<T>
    requires k <= |s|
  {
    s[..k] + [x] + s[k..]
  }

  lemma InsertedAt<T(!new)>(s: seq<Handle<T>>, k: nat, x: Handle<T>, i: int)
    requires k <= |s|
    ensures At(Inserted(s, k, x), i) == if i < k then At(s, i) else if i == k then x else At(s, i - 1)
  {}

  lemma RemovedAt<T(!new)>(s: seq<Handle<T>>, k: nat, i: int)
    requires k < |s|
    ensures At(Removed(s, k), i) == if i < k then At(s, i) else At(s, i + 1)
  {}

  lemma InsertedDistinct<T(!new)>(s: seq<Handle<T>>, k: nat, x: Handle<T>)
    requires k <= |s| && Distinct(s) && x !in s
    ensures Distinct(Inserted(s, k, x))
  {}

  lemma RemovedDistinct<T(!new)>(s: seq<Handle<T>>, k: nat)
    requires k < |s| && Distinct(s)
    ensures Distinct(Removed(s, k)) && s[k] !in Removed(s, k)
  {}

  // x has been spliced in before the k-th item.
  lemma InsertedNext<T(!new)>(s: seq<Handle<T>>, k: nat, x: Handle<T>)
    requires k < |s| && x.next == s[k]
    requires forall i :: 0 <= i < |s| ==> s[i].next == if i == k - 1 then x else At(s, i + 1)
    ensures NextLinked(Inserted(s, k, x))
  {
    var t := Inserted(s, k, x);
    forall i | 0 <= i < |t| ensures t[i].next == At(t, i + 1) {
      InsertedAt(s, k, x, i);
      InsertedAt(s, k, x, i + 1);
      assert t[i] == At(t, i);
    }
  }

  lemma InsertedPrev<T(!new)>(s: seq<Handle<T>>, k: nat, x: Handle<T>)
    requires k < |s| && x.prev == At(s, k - 1)
    requires forall i :: 0 <= i < |s| ==> s[i].prev == if i == k then x else At(s, i - 1)
    ensures PrevLinked(Inserted(s, k, x))
  {
    var t := Inserted(s, k, x);
    forall i | 0 <= i < |t| ensures t[i].prev == At(t, i - 1) {
      InsertedAt(s, k, x, i);
      InsertedAt(s, k, x, i - 1);
      assert t[i] == At(t, i);
    }
  }

  // The k-th item has been taken out.
  lemma RemovedNext<T(!new)>(s: seq<Handle<T>>, k: nat)
    requires k < |s|
    requires forall i :: 0 <= i < |s| && i != k ==> s[i].next == if i == k - 1 then At(s, k + 1) else At(s, i + 1)
    ensures NextLinked(Removed(s, k))
  {
    var t := Removed(s, k);
    forall i | 0 <= i < |t| ensures t[i].next == At(t, i + 1) {
      RemovedAt(s, k, i);
      RemovedAt(s, k, i + 1);
      assert t[i] == At(t, i);
    }
  }

  lemma RemovedPrev<T(!new)>(s: seq<Handle<T>>, k: nat)
    requires k < |s|
    requires forall i :: 0 <= i < |s| && i != k ==> s[i].prev == if i == k + 1 then At(s, k - 1) else At(s, i - 1)
    ensures PrevLinked(Removed(s, k))
  {
    var t := Removed(s, k);
    forall i | 0 <= i < |t| ensures t[i].prev == At(t, i - 1) {
      RemovedAt(s, k, i);
      RemovedAt(s, k, i - 1);
      assert t[i] == At(t, i);
    }
  }

  lemma RemovedChained<T(!new)>(s: seq<Handle<T>>, k: nat)
    requires k < |s| && Distinct(s)
    requires forall i :: 0 <= i < |s| && i != k ==> s[i].hhNext == if i == k - 1 then At(s, k + 1) else At(s, i + 1)
    requires forall i :: 0 <= i < |s| && i != k ==> s[i].hhPrev == if i == k + 1 then At(s, k - 1) else At(s, i - 1)
    ensures Chained(Removed(s, k))
  {
    var t := Removed(s, k);
    RemovedDistinct(s, k);
    forall i | 0 <= i < |t| ensures t[i].hhPrev == At(t, i - 1) && t[i].hhNext == At(t, i + 1) {
      RemovedAt(s, k, i);
      RemovedAt(s, k, i - 1);
      RemovedAt(s, k, i + 1);
      assert t[i] == At(t, i);
    }
  }

  // HASH_APPEND_LIST
  method AppendToList<T(!new)>(ghost s: seq<Handle<T>>, tail: Handle<T>, x: Handle<T>)
    requires Linked(s) && s != [] && tail == s[|s| - 1] && x !in s
    modifies x`next, x`prev, tail`next
    ensures Linked(s + [x])
  {
    x.next := null;
    x.prev := tail;
    tail.next := x;
    hide Linked;
    AppendedLinks(s, x);
  }

  lemma AppendedAt<T(!new)>(s: seq<Handle<T>>, x: Handle<T>, i: int)
    ensures At(s + [x], i) == if i == |s| then x else At(s, i)
  {}

  lemma AppendedLinks<T(!new)>(s: seq<Handle<T>>, x: Handle<T>)
    requires Distinct(s) && s != [] && x !in s && x.next == null && x.prev == s[|s| - 1]
    requires forall i :: 0 <= i < |s| ==> s[i].next == if i == |s| - 1 then x else At(s, i + 1)
    requires PrevLinked(s)
    ensures Linked(s + [x])
  {
    var t := s + [x];
    forall i | 0 <= i < |t| ensures t[i].next == At(t, i + 1) && t[i].prev == At(t, i - 1) {
      AppendedAt(s, x, i - 1);
      AppendedAt(s, x, i);
      AppendedAt(s, x, i + 1);
      if i == |s| {
        assert At(t, i - 1) == s[i - 1];
      } else {
        assert t[i] == s[i] && s[i].prev == At(s, i - 1);
      }
    }
    assert Distinct(t);
  }

  // The patch-up of an ordered insertion before iter.
  method InsertIntoList<T(!new)>(ghost s: seq<Handle<T>>, head: Handle<T>, iter: Handle<T>, x: Handle<T>, ghost k: nat)
    returns (head': Handle<T>)
    requires Linked(s) && k < |s| && iter == s[k] && head == s[0] && x !in s
    modifies x`next, x`prev, s`next, iter`prev
    ensures Linked(Inserted(s, k, x)) && head' == Inserted(s, k, x)[0]
  {
    head' := head;
    x.next := iter;
    x.prev := iter.prev;
    if x.prev != null {
      x.prev.next := x;
    } else {
      head' := x;
    }
    iter.prev := x;
    InsertedNext(s, k, x);
    InsertedPrev(s, k, x);
    InsertedDistinct(s, k, x);
    InsertedAt(s, k, x, 0);
  }

  // The patch-up of HASH_DELETE_HH.
  method RemoveFromList<T(!new)>(ghost s: seq<Handle<T>>, head: Handle<T>, tail: Handle<T>, x: Handle<T>, ghost k: nat)
    returns (head': Handle<T>, tail': Handle<T>)
    requires Linked(s) && |s| >= 2 && k < |s| && x == s[k] && head == s[0] && tail == s[|s| - 1]
    modifies s`next, s`prev
    ensures Linked(Removed(s, k)) && head' == Removed(s, k)[0] && tail' == Removed(s, k)[|s| - 2]
  {
    head', tail' := head, tail;
    if x == tail {
      tail' := x.prev;
    }
    if x.prev != null {
      x.prev.next := x.next;
    } else {
      head' := x.next;
    }
    if x.next != null {
      x.next.prev := x.prev;
    }
    hide Linked, Removed;
    RemovedNext(s, k);
    RemovedPrev(s, k);
    RemovedDistinct(s, k);
    RemovedLinked(s, k);
  }

  lemma RemovedLinked<T(!new)>(s: seq<Handle<T>>, k: nat)
    requires |s| >= 2 && k < |s|
    ensures |Removed(s, k)| == |s| - 1
    ensures Removed(s, k)[0] == s[if k == 0 then 1 else 0]
    ensures Removed(s, k)[|s| - 2] == s[if k == |s| - 1 then |s| - 2 else |s| - 1]
    ensures Distinct(Removed(s, k)) && NextLinked(Removed(s, k)) && PrevLinked(Removed(s, k)) ==> Linked(Removed(s, k))
  {}

  // HASH_ADD_TO_BKT without the expansion: to the front.
  method AddToChain<T(!new)>(ghost s: seq<Handle<T>>, first: Handle?<T>, x: Handle<T>)
    requires Chained(s) && first == At(s, 0) && x !in s
    modifies x`hhNext, x`hhPrev, s`hhPrev
    ensures Chained([x] + s)
  {
    x.hhNext := first;
    x.hhPrev := null;
    if first != null {
      first.hhPrev := x;
    }
  }

  // HASH_DEL_IN_BKT without the count.
  method RemoveFromChain<T(!new)>(ghost s: seq<Handle<T>>, first: Handle?<T>, x: Handle<T>, ghost k: nat)
    returns (first': Handle?<T>)
    requires Chained(s) && first == At(s, 0) && k < |s| && x == s[k]
    modifies s`hhNext, s`hhPrev
    ensures Chained(Removed(s, k)) && first' == At(Removed(s, k), 0)
  {
    first' := first;
    if first == x {
      first' := x.hhNext;
    }
    if x.hhPrev != null {
      x.hhPrev.hhNext := x.hhNext;
    }
    if x.hhNext != null {
      x.hhNext.hhPrev := x.hhPrev;
    }
    RemovedChained(s, k);
    RemovedAt(s, k, 0);
  }
}
