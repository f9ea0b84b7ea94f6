// HASH_SRT: the merge passes carried out on the links.

module HashSorts {
  import opened HashLists
  import opened HashTables
  import opened Merging

  // The list being built: complete but for the last item's next link.
  ghost predicate Growing<T(!new)>(out: seq<Handle<T>>, list: Handle?<T>, tail: Handle?<T>)
    reads out`next, out`prev
  {
    list == At(out, 0) && tail == At(out, |out| - 1) && PrevLinked(out)
    && forall i :: 0 <= i < |out| - 1 ==> out[i].next == out[i + 1]
  }

  // A stretch whose items still have their links forward.
  ghost predicate Forward<T(!new)>(p: seq<Handle<T>>)
    reads p`next
  {
    forall i :: 0 <= i < |p| - 1 ==> p[i].next == p[i + 1]
  }

  ghost predicate Disjoint<T(!new)>(a: seq<Handle<T>>, b: seq<Handle<T>>) { forall i :: 0 <= i < |a| ==> a[i] !in b }

  // The output, what is left of the first run, and all behind it.
  ghost predicate Parts<T(!new)>(out: seq<Handle<T>>, p: seq<Handle<T>>, r: seq<Handle<T>>, all: seq<Handle<T>>)
  {
    Distinct(out) && Distinct(p) && Distinct(r) && Disjoint(out, p) && Disjoint(out, r) && Disjoint(p, r)
    && (forall i :: 0 <= i < |out| ==> out[i] in all)
    && (forall i :: 0 <= i < |p| ==> p[i] in all) && (forall i :: 0 <= i < |r| ==> r[i] in all)
  }

  // In the middle of merging: p has psize items left, the second run qsize at most.
  ghost predicate MidMerge<T(!new)>(out: seq<Handle<T>>, list: Handle?<T>, tail: Handle?<T>, p: seq<Handle<T>>,
                                   r: seq<Handle<T>>, all: seq<Handle<T>>)
    reads all`next, all`prev
  {
    Parts(out, p, r, all) && Growing(out, list, tail) && Forward(p) && NextLinked(r)
  }

  lemma FromP<T(!new)>(out: seq<Handle<T>>, p: seq<Handle<T>>, r: seq<Handle<T>>, all: seq<Handle<T>>)
    requires Parts(out, p, r, all) && p != []
    ensures Parts(out + [p[0]], p[1..], r, all) && p[0] !in out && p[0] !in p[1..] && p[0] !in r && p[0] in all
  {}

  lemma FromR<T(!new)>(out: seq<Handle<T>>, p: seq<Handle<T>>, r: seq<Handle<T>>, all: seq<Handle<T>>)
    requires Parts(out, p, r, all) && r != []
    ensures Parts(out + [r[0]], p, r[1..], all) && r[0] !in out && r[0] !in p && r[0] !in r[1..] && r[0] in all
  {}

  // Appends e to the list being built.
  method AppendOut<T(!new)>(e: Handle<T>, list: Handle?<T>, tail: Handle?<T>, ghost out: seq<Handle<T>>)
    returns (list': Handle?<T>)
    requires Growing(out, list, tail) && Distinct(out) && e !in out
    modifies out`next, e`prev
    ensures Growing(out + [e], list', e)
    ensures forall h :: h in out && h != tail ==> h.next == old(h.next)
  {
    list' := list;
    if tail != null {
      tail.next := e;
    } else {
      list' := e;
    }
    e.prev := tail;
  }

  // The next item comes from the first run ...
  method MoveP<T(!new)>(p: Handle<T>, list: Handle?<T>, tail: Handle?<T>, ghost out: seq<Handle<T>>,
                        ghost ps: seq<Handle<T>>, ghost r: seq<Handle<T>>, ghost all: seq<Handle<T>>)
    returns (p': Handle?<T>, list': Handle?<T>)
    requires MidMerge(out, list, tail, ps, r, all) && ps != [] && p == ps[0]
    modifies all`next, all`prev
    ensures MidMerge(out + [p], list', p, ps[1..], r, all) && (|ps| > 1 ==> p' == ps[1])
  {
    p' := p.next;
    FromP(out, ps, r, all);
    list' := AppendOut(p, list, tail, out);
  }

  // ... or from the second.
  method MoveQ<T(!new)>(q: Handle<T>, list: Handle?<T>, tail: Handle?<T>, ghost out: seq<Handle<T>>,
                        ghost ps: seq<Handle<T>>, ghost r: seq<Handle<T>>, ghost all: seq<Handle<T>>)
    returns (q': Handle?<T>, list': Handle?<T>)
    requires MidMerge(out, list, tail, ps, r, all) && r != [] && q == r[0]
    modifies all`next, all`prev
    ensures MidMerge(out + [q], list', q, ps, r[1..], all) && q' == At(r[1..], 0)
  {
    q' := q.next;
    FromR(out, ps, r, all);
    list' := AppendOut(q, list, tail, out);
  }

  lemma NextFromP<T>(ps: seq<Handle<T>>, r: seq<Handle<T>>, qsize: nat, cmp: (T, T) -> int)
    requires ps != [] && (qsize == 0 || r == [] || cmp(ps[0].elem, r[0].elem) <= 0)
    ensures Merge(ps, Take(r, qsize), cmp) == [ps[0]] + Merge(ps[1..], Take(r, qsize), cmp)
  {}

  lemma NextFromQ<T>(ps: seq<Handle<T>>, r: seq<Handle<T>>, qsize: nat, cmp: (T, T) -> int)
    requires r != [] && qsize > 0 && (ps == [] || cmp(ps[0].elem, r[0].elem) > 0)
    ensures Merge(ps, Take(r, qsize), cmp) == [r[0]] + Merge(ps, Take(r[1..], qsize - 1), cmp)
    ensures DropFirst(r, qsize) == DropFirst(r[1..], qsize - 1)
  {
    assert Take(r, qsize)[1..] == Take(r[1..], qsize - 1);
  }

  lemma NothingNext<T>(r: seq<Handle<T>>, qsize: nat, cmp: (T, T) -> int)
    requires qsize == 0 || r == []
    ensures Merge([], Take(r, qsize), cmp) == [] && DropFirst(r, qsize) == r
  {}

  // The inner loop of HASH_SRT: one merge of two neighbouring runs.
  method MergeRuns<T(!new)>(p0: Handle<T>, psize0: nat, q0: Handle?<T>, w: nat, list0: Handle?<T>, tail0: Handle?<T>,
                            cmp: (T, T) -> int, ghost out0: seq<Handle<T>>, ghost ps0: seq<Handle<T>>,
                            ghost r0: seq<Handle<T>>, ghost all: seq<Handle<T>>)
    returns (q: Handle?<T>, list: Handle?<T>, tail: Handle?<T>)
    requires MidMerge(out0, list0, tail0, ps0, r0, all) && ps0 != [] && p0 == ps0[0] && psize0 == |ps0|
      && q0 == At(r0, 0)
    modifies all`next, all`prev
    ensures MidMerge(out0 + Merge(ps0, Take(r0, w), cmp), list, tail, [], DropFirst(r0, w), all)
    ensures q == At(DropFirst(r0, w), 0)
  {
    hide MidMerge, Merge, Take, DropFirst;
    var p: Handle?<T>, psize, qsize := p0, psize0, w;
    q, list, tail := q0, list0, tail0;
    ghost var out, ps, r := out0, ps0, r0;
    while psize != 0 || (qsize != 0 && q != null)
      invariant MidMerge(out, list, tail, ps, r, all) && psize == |ps| && q == At(r, 0) && (ps != [] ==> p == ps[0])
      invariant out + Merge(ps, Take(r, qsize), cmp) == out0 + Merge(ps0, Take(r0, w), cmp)
      invariant DropFirst(r, qsize) == DropFirst(r0, w)
      decreases psize + qsize
    {
      var e: Handle<T>;
      if psize != 0 && (qsize == 0 || q == null || cmp(p.elem, q.elem) <= 0) {
        e := p;
        NextFromP(ps, r, qsize, cmp);
        p, list := MoveP(e, list, tail, out, ps, r, all);
        psize, ps := psize - 1, ps[1..];
      } else {
        e := q;
        NextFromQ(ps, r, qsize, cmp);
        q, list := MoveQ(e, list, tail, out, ps, r, all);
        qsize, r := qsize - 1, r[1..];
      }
      Shift(out, e, Merge(ps, Take(r, qsize), cmp));
      tail, out := e, out + [e];
    }
    NothingNext(r, qsize, cmp);
    assert ps == [] && out + [] == out;
  }

  lemma Shift<T>(a: seq<T>, x: T, b: seq<T>)
    ensures a + ([x] + b) == (a + [x]) + b
  {}

  // ----- A pass

  // The output so far, and the rest of the list.
  ghost predicate MidPass<T(!new)>(out: seq<Handle<T>>, list: Handle?<T>, tail: Handle?<T>, r: seq<Handle<T>>,
                                   all: seq<Handle<T>>)
    reads all`next, all`prev
  {
    MidMerge(out, list, tail, [], r, all)
  }

  lemma SplitRun<T(!new)>(out: seq<Handle<T>>, list: Handle?<T>, tail: Handle?<T>, r: seq<Handle<T>>,
                          all: seq<Handle<T>>, w: nat)
    requires MidPass(out, list, tail, r, all)
    ensures MidMerge(out, list, tail, Take(r, w), DropFirst(r, w), all)
  {
    hide Growing;
    var p, q := Take(r, w), DropFirst(r, w);
    forall i | 0 <= i < |p| ensures p[i] == r[i] {}
    forall i | 0 <= i < |q| ensures q[i] == r[w + i] {}
    hide Take, DropFirst;
    assert |q| > 0 ==> |p| == w;
    assert |p| + |q| == |r|;
    assert Disjoint(p, q);
    forall i | 0 <= i < |q| ensures q[i].next == At(q, i + 1) { assert r[w + i].next == At(r, w + i + 1); }
  }

  // Stepping over a run of at most w items.
  method StepOver<T(!new)>(p: Handle<T>, w: nat, ghost r: seq<Handle<T>>) returns (q: Handle?<T>, psize: nat)
    requires NextLinked(r) && r != [] && p == r[0] && w > 0
    ensures psize == |Take(r, w)| && q == At(DropFirst(r, w), 0)
  {
    q := p;
    psize := 0;
    for i := 0 to w
      invariant psize == i <= |r| && q == At(r, i) && q != null
    {
      psize := psize + 1;
      q := q.next;
      if q == null { break; }
    }
  }

  // One merge: the runs that start at p, of at most w items each.
  method MergePair<T(!new)>(p: Handle<T>, w: nat, l: Handle?<T>, t: Handle?<T>, cmp: (T, T) -> int,
                            ghost out: seq<Handle<T>>, ghost r: seq<Handle<T>>, ghost all: seq<Handle<T>>)
    returns (p': Handle?<T>, l': Handle?<T>, t': Handle?<T>)
    requires MidPass(out, l, t, r, all) && r != [] && p == r[0] && w > 0
    modifies all`next, all`prev
    ensures MidPass(out + Merge(Take(r, w), Take(DropFirst(r, w), w), cmp), l', t', DropFirst(r, 2 * w), all)
    ensures p' == At(DropFirst(r, 2 * w), 0)
  {
    SplitRun(out, l, t, r, all, w);
    ThreeParts(r, w);
    var q, psize := StepOver(p, w, r);
    assert Take(r, w) != [] && Take(r, w)[0] == p;
    hide MidMerge, Merge, Take, DropFirst;
    p', l', t' := MergeRuns(p, psize, q, w, l, t, cmp, out, Take(r, w), DropFirst(r, w), all);
  }

  lemma LengthLeft<T>(r: seq<T>, n: nat)
    ensures |DropFirst(r, n)| == if |r| <= n then 0 else |r| - n
  {}

  lemma PassStep<T>(out: seq<Handle<T>>, r: seq<Handle<T>>, w: nat, cmp: (T, T) -> int)
    requires w > 0 && r != []
    ensures var m := Merge(Take(r, w), Take(DropFirst(r, w), w), cmp);
      out + MergePass(r, w, cmp) == (out + m) + MergePass(DropFirst(r, 2 * w), w, cmp)
    ensures Merges(|r|, w) == 1 + Merges(|DropFirst(r, 2 * w)|, w) && |DropFirst(r, 2 * w)| < |r|
  {
    hide Merge, Take, DropFirst;
    LengthLeft(r, 2 * w);
    var m, rest := Merge(Take(r, w), Take(DropFirst(r, w), w), cmp), MergePass(DropFirst(r, 2 * w), w, cmp);
    assert MergePass(r, w, cmp) == m + rest;
    assert out + (m + rest) == (out + m) + rest;
  }

  lemma StartPass<T(!new)>(s: seq<Handle<T>>, w: nat, cmp: (T, T) -> int)
    requires NextLinked(s) && Distinct(s) && w > 0
    ensures MidPass([], null, null, s, s) && [] + MergePass(s, w, cmp) == MergePass(s, w, cmp)
  {}

  // The last item's next link is cleared.
  method EndPass<T(!new)>(l: Handle?<T>, t: Handle?<T>, ghost out: seq<Handle<T>>, ghost all: seq<Handle<T>>)
    returns (list: Handle<T>, tail: Handle<T>)
    requires MidPass(out, l, t, [], all) && out != []
    modifies all`next
    ensures Linked(out) && list == out[0] && tail == out[|out| - 1] && forall i :: 0 <= i < |out| ==> out[i] in all
  {
    list, tail := l, t;
    tail.next := null;
  }

  method OnePass<T(!new)>(first: Handle<T>, w: nat, cmp: (T, T) -> int, ghost s: seq<Handle<T>>)
    returns (list: Handle<T>, tail: Handle<T>, nmerges: nat)
    requires Linked(s) && s != [] && first == s[0] && w > 0
    modifies s`next, s`prev
    ensures var m := MergePass(s, w, cmp);
      Linked(m) && list == m[0] && tail == m[|s| - 1] && forall i :: 0 <= i < |m| ==> m[i] in s
    ensures nmerges == Merges(|s|, w)
  {
    var p: Handle?<T> := first;
    var l: Handle?<T>, t: Handle?<T> := null, null;
    nmerges := 0;
    ghost var out, r := [], s;
    StartPass(s, w, cmp);
    hide MidPass, Merge, Take, DropFirst, MergePass, Merges;
    while p != null
      invariant MidPass(out, l, t, r, s) && p == At(r, 0)
      invariant out + MergePass(r, w, cmp) == MergePass(s, w, cmp) && nmerges + Merges(|r|, w) == Merges(|s|, w)
      decreases |r|
    {
      nmerges := nmerges + 1;
      PassStep(out, r, w, cmp);
      p, l, t := MergePair(p, w, l, t, cmp, out, r, s);
      out, r := out + Merge(Take(r, w), Take(DropFirst(r, w), w), cmp), DropFirst(r, 2 * w);
    }
    assert |MergePass(r, w, cmp)| == 0 && out + [] == out;
    list, tail := EndPass(l, t, out, s);
  }

  // ----- All passes

  lemma KeysPermuted<T(!new)>(s: seq<Handle<T>>, t: seq<Handle<T>>, hash: seq<int> -> nat)
    requires Keys(s, hash) && Distinct(t) && forall i :: 0 <= i < |t| ==> t[i] in s
    ensures Keys(t, hash)
  {
    forall i, j | 0 <= i < j < |t| ensures t[i].key != t[j].key {
      var a :| 0 <= a < |s| && s[a] == t[i];
      var b :| 0 <= b < |s| && s[b] == t[j];
      assert a != b;
    }
  }

  lemma SameItemsOfSort<T(!new)>(s: seq<Handle<T>>, cmp: (T, T) -> int)
    ensures SameItems(s, Sort(s, cmp))
  {
    PassesPermute(s, 1, cmp);
    forall h | h in s ensures h in Sort(s, cmp) { assert h in multiset(s); }
    forall h | h in Sort(s, cmp) ensures h in s { assert h in multiset(s); }
  }

  lemma StillAll<T(!new)>(s: seq<Handle<T>>, t: seq<Handle<T>>, all: seq<Handle<T>>)
    requires (forall i :: 0 <= i < |t| ==> t[i] in s) && forall i :: 0 <= i < |s| ==> s[i] in all
    ensures forall i :: 0 <= i < |t| ==> t[i] in all
  {}

  method SortList<T(!new)>(first: Handle<T>, cmp: (T, T) -> int, ghost all: seq<Handle<T>>)
    returns (list: Handle<T>, tail: Handle<T>)
    requires Linked(all) && all != [] && first == all[0]
    modifies all`next, all`prev
    ensures var s := Sort(all, cmp); Linked(s) && list == s[0] && tail == s[|s| - 1]
  {
    hide Linked, MergePass, Merges;
    list := first;
    var insize, nmerges := 1, 2;
    ghost var s := all;
    while true
      invariant Linked(s) && s != [] && list == s[0] && insize > 0
      invariant MergePasses(s, insize, cmp) == Sort(all, cmp) && forall i :: 0 <= i < |s| ==> s[i] in all
      decreases |s| - insize
    {
      list, tail, nmerges := OnePass(list, insize, cmp, s);
      ghost var m := MergePass(s, insize, cmp);
      StillAll(s, m, all);
      FewMerges(|s|, insize);
      if nmerges <= 1 { break; }
      s, insize := m, insize * 2;
    }
  }

  lemma FewMerges(n: nat, w: nat)
    requires w > 0
    ensures Merges(n, w) <= 1 <==> n <= 2 * w
  {}

  // HASH_SRT: the list is sorted, the index is left alone.
  method SortTable<T(!new)>(t: HashTable<T>, cmp: (T, T) -> int)
    requires t.Valid()
    modifies t`head, t`tail, t`order, t.order`next, t.order`prev
    ensures t.Valid() && t.order == Sort(old(t.order), cmp)
    ensures multiset(t.order) == multiset(old(t.order))
    ensures Orders(cmp) ==> Sorted(t.order, cmp) && forall x :: Tied(t.order, x, cmp) == Tied(old(t.order), x, cmp)
  {
    hide t.Indexed, Keys, Linked, Sorted, Orders, Sort, Tied;
    SortedTable(t, cmp);
    if t.head != null {
      ghost var s := t.order;
      t.head, t.tail := SortList(t.head, cmp, t.order);
      t.order := Sort(t.order, cmp);
      LinkedIsDistinct(t.order);
    }
  }

  lemma LinkedIsDistinct<T(!new)>(s: seq<Handle<T>>)
    requires Linked(s)
    ensures Distinct(s)
  {}

  lemma SortedTable<T(!new)>(t: HashTable<T>, cmp: (T, T) -> int)
    requires t.Valid()
    ensures |Sort(t.order, cmp)| == |t.order| && forall i :: 0 <= i < |t.order| ==> Sort(t.order, cmp)[i] in t.order
    ensures t.head != null ==> t.Indexed(Sort(t.order, cmp))
    ensures Distinct(Sort(t.order, cmp)) ==> Keys(Sort(t.order, cmp), t.hash)
    ensures multiset(Sort(t.order, cmp)) == multiset(t.order)
    ensures Orders(cmp) ==>
      Sorted(Sort(t.order, cmp), cmp) && forall x :: Tied(Sort(t.order, cmp), x, cmp) == Tied(t.order, x, cmp)
  {
    hide Sorted, Orders, Tied, Ties, Linked, MergePass;
    PassesPermute(t.order, 1, cmp);
    SameItemsOfSort(t.order, cmp);
    if t.head != null { IndexedStays(t.buckets[..], t.chains, t.order, Sort(t.order, cmp)); }
    if Distinct(Sort(t.order, cmp)) { KeysPermuted(t.order, Sort(t.order, cmp), t.hash); }
    if Orders(cmp) { SortSorts(t.order, cmp); }
  }
}
