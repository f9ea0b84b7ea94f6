// What the merge sort comes to: the list as if its items had been added in
// order, one after the other.

module StableSorts {
  import opened HashLists
  import opened HashTables
  import opened Merging

  // The items inserted in order into an empty list.
  function InsertionSort<T>(s: seq<Handle<T>>, cmp: (T, T) -> int): (r: seq<Handle<T>>)
    ensures |r| == |s|
  {
    if s == [] then []
    else
      var r := InsertionSort(s[..|s| - 1], cmp);
      Inserted(r, Pos(Elems(r), s[|s| - 1].elem, cmp), s[|s| - 1])
  }

  // One ordered insertion, item by item.
  function Insert<T>(s: seq<Handle<T>>, x: Handle<T>, cmp: (T, T) -> int): seq<Handle<T>>
  {
    if s == [] || cmp(s[0].elem, x.elem) > 0 then [x] + s else [s[0]] + Insert(s[1..], x, cmp)
  }

  lemma {:induction false} InsertIsInserted<T>(s: seq<Handle<T>>, x: Handle<T>, cmp: (T, T) -> int)
    ensures Insert(s, x, cmp) == Inserted(s, Pos(Elems(s), x.elem, cmp), x)
  {
    if s != [] && cmp(s[0].elem, x.elem) <= 0 {
      var t, k := s[1..], Pos(Elems(s[1..]), x.elem, cmp);
      InsertIsInserted(t, x, cmp);
      assert Elems(s)[1..] == Elems(t) && Pos(Elems(s), x.elem, cmp) == k + 1;
      hide Pos, Elems;
      assert s[..k + 1] == [s[0]] + t[..k] && s[k + 1..] == t[k..];
      assert Inserted(s, k + 1, x) == [s[0]] + Inserted(t, k, x);
    }
  }

  lemma {:induction false} InsertMembers<T(!new)>(s: seq<Handle<T>>, x: Handle<T>, cmp: (T, T) -> int)
    ensures forall h :: h in Insert(s, x, cmp) ==> h in s || h == x
  {
    if s != [] && cmp(s[0].elem, x.elem) <= 0 { InsertMembers(s[1..], x, cmp); }
  }

  lemma {:induction false} InsertSorted<T(!new)>(s: seq<Handle<T>>, x: Handle<T>, cmp: (T, T) -> int)
    requires Orders(cmp) && Sorted(s, cmp)
    ensures Sorted(Insert(s, x, cmp), cmp)
  {
    if s != [] && cmp(s[0].elem, x.elem) <= 0 {
      InsertSorted(s[1..], x, cmp);
      InsertMembers(s[1..], x, cmp);
      assert Insert(s, x, cmp)[1..] == Insert(s[1..], x, cmp);
    } else if s != [] {
      HeadFirst(x.elem, s, cmp);
      assert Insert(s, x, cmp)[1..] == s;
    }
  }

  // x goes behind everything it ties with.
  lemma {:induction false} InsertStable<T(!new)>(s: seq<Handle<T>>, x: Handle<T>, y: T, cmp: (T, T) -> int)
    requires Orders(cmp) && Sorted(s, cmp)
    ensures Tied(Insert(s, x, cmp), y, cmp) == Tied(s, y, cmp) + Tied([x], y, cmp)
  {
    hide Orders, Ties;
    if s == [] || cmp(s[0].elem, x.elem) > 0 {
      TiedConcat([x], s, y, cmp);
      if Ties(x.elem, y, cmp) { NoTies(s, x.elem, y, cmp); }
      OneTied(x, y, cmp);
    } else {
      InsertStable(s[1..], x, y, cmp);
      assert Insert(s, x, cmp)[1..] == Insert(s[1..], x, cmp);
    }
  }

  lemma OneTied<T>(x: Handle<T>, y: T, cmp: (T, T) -> int)
    ensures Tied([x], y, cmp) == if Ties(x.elem, y, cmp) then [x] else []
  {}

  lemma {:induction false} InsertionSorts<T(!new)>(s: seq<Handle<T>>, cmp: (T, T) -> int)
    requires Orders(cmp)
    ensures Sorted(InsertionSort(s, cmp), cmp)
    ensures forall y :: Tied(InsertionSort(s, cmp), y, cmp) == Tied(s, y, cmp)
  {
    hide Orders, Tied, Sorted, Insert;
    if s != [] {
      var p, x := s[..|s| - 1], s[|s| - 1];
      var r := InsertionSort(p, cmp);
      InsertionSorts(p, cmp);
      InsertIsInserted(r, x, cmp);
      InsertSorted(r, x, cmp);
      forall y ensures Tied(InsertionSort(s, cmp), y, cmp) == Tied(s, y, cmp) {
        InsertStable(r, x, y, cmp);
        TiedConcat(p, [x], y, cmp);
        assert p + [x] == s;
      }
    } else {
      Nothing(cmp);
    }
  }

  lemma Nothing<T(!new)>(cmp: (T, T) -> int)
    ensures Sorted([], cmp)
  {}

  lemma TiedMembers<T>(s: seq<Handle<T>>, x: T, cmp: (T, T) -> int)
    ensures forall h :: h in Tied(s, x, cmp) ==> h in s
  {
    if s != [] { TiedMembers(s[1..], x, cmp); }
  }

  lemma TiesItself<T(!new)>(x: T, cmp: (T, T) -> int)
    requires Orders(cmp)
    ensures Ties(x, x, cmp)
  {}

  // Who comes first in one of two sorted lists ties with a member of the other.
  lemma HeadIsMember<T(!new)>(s: seq<Handle<T>>, t: seq<Handle<T>>, cmp: (T, T) -> int)
    requires Orders(cmp) && s != [] && Tied(s, s[0].elem, cmp) == Tied(t, s[0].elem, cmp)
    ensures s[0] in t
  {
    TiesItself(s[0].elem, cmp);
    assert Tied(s, s[0].elem, cmp)[0] == s[0];
    TiedMembers(t, s[0].elem, cmp);
  }

  lemma SmallestAgree<T(!new)>(s: seq<Handle<T>>, t: seq<Handle<T>>, cmp: (T, T) -> int)
    requires Orders(cmp) && Sorted(s, cmp) && Sorted(t, cmp) && s != [] && t != []
    requires s[0] in t && t[0] in s && Tied(s, s[0].elem, cmp) == Tied(t, s[0].elem, cmp)
    ensures s[0] == t[0]
  {
    TiesItself(s[0].elem, cmp);
    assert s[0] == t[0] || (s[0] in t[1..] && t[0] in s[1..]) by {
      assert s == [s[0]] + s[1..] && t == [t[0]] + t[1..];
    }
    assert Ties(t[0].elem, s[0].elem, cmp);
    assert Tied(s, s[0].elem, cmp)[0] == s[0] && Tied(t, s[0].elem, cmp)[0] == t[0];
  }

  // A stable sort is determined by its input.
  lemma {:induction false} StableSortIsUnique<T(!new)>(s: seq<Handle<T>>, t: seq<Handle<T>>, cmp: (T, T) -> int)
    requires Orders(cmp) && Sorted(s, cmp) && Sorted(t, cmp)
    requires forall x :: Tied(s, x, cmp) == Tied(t, x, cmp)
    ensures s == t
  {
    if s != [] { HeadIsMember(s, t, cmp); }
    if t != [] { HeadIsMember(t, s, cmp); }
    if s != [] {
      SmallestAgree(s, t, cmp);
      forall x ensures Tied(s[1..], x, cmp) == Tied(t[1..], x, cmp) {
        assert Tied(s, x, cmp) == Tied(t, x, cmp);
        TiedTail(s, x, cmp);
        TiedTail(t, x, cmp);
      }
      StableSortIsUnique(s[1..], t[1..], cmp);
      assert s == [s[0]] + s[1..] && t == [t[0]] + t[1..];
    }
  }

  lemma TiedTail<T(!new)>(s: seq<Handle<T>>, x: T, cmp: (T, T) -> int)
    requires s != []
    ensures Tied(s[1..], x, cmp) == if Ties(s[0].elem, x, cmp) then Tied(s, x, cmp)[1..] else Tied(s, x, cmp)
  {}

  // HASH_SRT leaves the list that ordered insertion of its items makes.
  lemma SortIsInsertionSort<T(!new)>(s: seq<Handle<T>>, cmp: (T, T) -> int)
    requires Orders(cmp)
    ensures Sort(s, cmp) == InsertionSort(s, cmp)
  {
    hide Orders, Sorted, Tied, Sort, InsertionSort;
    SortSorts(s, cmp);
    InsertionSorts(s, cmp);
    StableSortIsUnique(Sort(s, cmp), InsertionSort(s, cmp), cmp);
  }
}
