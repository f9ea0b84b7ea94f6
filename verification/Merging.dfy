// Bottom-up merge sort on sequences: what one pass of HASH_SRT does, and what
// all passes come to.

module Merging {
  import opened HashLists

  // compare gives a total preorder.
  ghost predicate Orders<T(!new)>(cmp: (T, T) -> int)
  {
    (forall a, b :: cmp(a, b) > 0 ==> cmp(b, a) <= 0)
    && forall a, b, c :: cmp(a, b) <= 0 && cmp(b, c) <= 0 ==> cmp(a, c) <= 0
  }

  ghost predicate AtMost<T(!new)>(x: T, s: seq<Handle<T>>, cmp: (T, T) -> int)
  {
    forall h :: h in s ==> cmp(x, h.elem) <= 0
  }

  ghost predicate Sorted<T(!new)>(s: seq<Handle<T>>, cmp: (T, T) -> int)
  {
    s == [] || (AtMost(s[0].elem, s[1..], cmp) && Sorted(s[1..], cmp))
  }

  function Take<T>(s: seq<T>, n: nat): seq<T> { if n <= |s| then s[..n] else s }

  function DropFirst<T>(s: seq<T>, n: nat): seq<T> { if n <= |s| then s[n..] else [] }

  function Merge<T>(p: seq<Handle<T>>, q: seq<Handle<T>>, cmp: (T, T) -> int): (r: seq<Handle<T>>)
    ensures |r| == |p| + |q|
  {
    if p == [] then q
    else if q == [] then p
    else if cmp(p[0].elem, q[0].elem) <= 0 then [p[0]] + Merge(p[1..], q, cmp)
    else [q[0]] + Merge(p, q[1..], cmp)
  }

  // One pass: runs of length w are merged in pairs.
  function MergePass<T>(s: seq<Handle<T>>, w: nat, cmp: (T, T) -> int): (r: seq<Handle<T>>)
    requires w > 0
    ensures |r| == |s|
    decreases |s|
  {
    if s == [] then []
    else Merge(Take(s, w), Take(DropFirst(s, w), w), cmp) + MergePass(DropFirst(s, 2 * w), w, cmp)
  }

  // The passes from width w on; the last one makes a single merge.
  function MergePasses<T>(s: seq<Handle<T>>, w: nat, cmp: (T, T) -> int): (r: seq<Handle<T>>)
    requires w > 0
    ensures |r| == |s|
    decreases |s| - w
  {
    if |s| <= 2 * w then MergePass(s, w, cmp) else MergePasses(MergePass(s, w, cmp), 2 * w, cmp)
  }

  // How many merges a pass makes.
  function Merges(n: nat, w: nat): (m: nat)
    requires w > 0
    ensures m <= 1 <==> n <= 2 * w
    ensures m == 0 <==> n == 0
    decreases n
  {
    if n == 0 then 0 else if n <= 2 * w then 1 else 1 + Merges(n - 2 * w, w)
  }

  lemma ThreeParts<T>(s: seq<T>, w: nat)
    ensures var rest := DropFirst(s, w);
      s == Take(s, w) + (Take(rest, w) + DropFirst(s, 2 * w)) && DropFirst(s, 2 * w) == DropFirst(rest, w)
    ensures (s == [] ==> Take(s, w) == [] && DropFirst(s, w) == [])
    ensures DropFirst(s, w) == [] ==> Take(DropFirst(s, w), w) == [] && DropFirst(s, 2 * w) == []
    ensures w > 0 && s != [] ==> |DropFirst(s, 2 * w)| < |s|
  {}

  // ----- Sortedness

  // Every aligned run of length w is sorted.
  ghost predicate Runs<T(!new)>(s: seq<Handle<T>>, w: nat, cmp: (T, T) -> int)
    requires w > 0
    decreases |s|
  {
    s == [] || (Sorted(Take(s, w), cmp) && Runs(DropFirst(s, w), w, cmp))
  }

  lemma {:induction false} MergeMembers<T(!new)>(p: seq<Handle<T>>, q: seq<Handle<T>>, cmp: (T, T) -> int)
    ensures forall h :: h in Merge(p, q, cmp) ==> h in p || h in q
  {
    if p != [] && q != [] {
      if cmp(p[0].elem, q[0].elem) <= 0 { MergeMembers(p[1..], q, cmp); } else { MergeMembers(p, q[1..], cmp); }
    }
  }

  lemma {:induction false} MergeSorted<T(!new)>(p: seq<Handle<T>>, q: seq<Handle<T>>, cmp: (T, T) -> int)
    requires Orders(cmp) && Sorted(p, cmp) && Sorted(q, cmp)
    ensures Sorted(Merge(p, q, cmp), cmp)
  {
    if p != [] && q != [] {
      if cmp(p[0].elem, q[0].elem) <= 0 {
        MergeSorted(p[1..], q, cmp);
        MergeMembers(p[1..], q, cmp);
        HeadFirst(p[0].elem, q, cmp);
        assert Merge(p, q, cmp)[1..] == Merge(p[1..], q, cmp);
      } else {
        MergeSorted(p, q[1..], cmp);
        MergeMembers(p, q[1..], cmp);
        HeadFirst(q[0].elem, p, cmp);
        assert Merge(p, q, cmp)[1..] == Merge(p, q[1..], cmp);
      }
    }
  }

  lemma HeadFirst<T(!new)>(x: T, s: seq<Handle<T>>, cmp: (T, T) -> int)
    requires Orders(cmp) && Sorted(s, cmp) && s != [] && cmp(x, s[0].elem) <= 0
    ensures AtMost(x, s, cmp)
  {
    forall h | h in s ensures cmp(x, h.elem) <= 0 {
      if h != s[0] {
        assert s == [s[0]] + s[1..];
        assert cmp(s[0].elem, h.elem) <= 0;
      }
    }
  }

  lemma {:induction false} ShortRuns<T(!new)>(s: seq<Handle<T>>, cmp: (T, T) -> int)
    ensures Runs(s, 1, cmp)
    decreases |s|
  {
    if s != [] {
      ShortRuns(DropFirst(s, 1), cmp);
      assert Take(s, 1)[1..] == [];
    }
  }

  // After a pass of width w all runs of length 2w are sorted.
  lemma {:induction false} PassDoublesRuns<T(!new)>(s: seq<Handle<T>>, w: nat, cmp: (T, T) -> int)
    requires w > 0 && Orders(cmp) && Runs(s, w, cmp)
    ensures Runs(MergePass(s, w, cmp), 2 * w, cmp)
    decreases |s|
  {
    if s != [] {
      var p, rest := Take(s, w), DropFirst(s, w);
      var q := Take(rest, w);
      assert DropFirst(s, 2 * w) == DropFirst(rest, w);
      assert Sorted(q, cmp) by { if rest == [] { assert q == []; } }
      assert Runs(DropFirst(rest, w), w, cmp) by { if rest == [] { assert DropFirst(rest, w) == []; } }
      MergeSorted(p, q, cmp);
      PassDoublesRuns(DropFirst(s, 2 * w), w, cmp);
      var m, r := Merge(p, q, cmp), MergePass(DropFirst(s, 2 * w), w, cmp);
      FirstRun(m, r, 2 * w);
    }
  }

  lemma FirstRun<T>(m: seq<T>, r: seq<T>, n: nat)
    requires |m| == n || (|m| < n && r == [])
    ensures Take(m + r, n) == m && DropFirst(m + r, n) == r
  {}

  lemma {:induction false} PassesSort<T(!new)>(s: seq<Handle<T>>, w: nat, cmp: (T, T) -> int)
    requires w > 0 && Orders(cmp) && Runs(s, w, cmp)
    ensures Sorted(MergePasses(s, w, cmp), cmp)
    decreases |s| - w
  {
    PassDoublesRuns(s, w, cmp);
    var t := MergePass(s, w, cmp);
    if |s| <= 2 * w {
      assert Take(t, 2 * w) == t;
    } else {
      PassesSort(t, 2 * w, cmp);
    }
  }

  // ----- Permutation

  lemma {:induction false} MergePermutes<T(!new)>(p: seq<Handle<T>>, q: seq<Handle<T>>, cmp: (T, T) -> int)
    ensures multiset(Merge(p, q, cmp)) == multiset(p) + multiset(q)
  {
    if p != [] && q != [] {
      assert p == [p[0]] + p[1..] && q == [q[0]] + q[1..];
      if cmp(p[0].elem, q[0].elem) <= 0 { MergePermutes(p[1..], q, cmp); } else { MergePermutes(p, q[1..], cmp); }
    }
  }

  lemma {:induction false} PassPermutes<T(!new)>(s: seq<Handle<T>>, w: nat, cmp: (T, T) -> int)
    requires w > 0
    ensures multiset(MergePass(s, w, cmp)) == multiset(s)
    decreases |s|
  {
    if s != [] {
      ThreeParts(s, w);
      hide Take, DropFirst, Merge;
      var p, q, last := Take(s, w), Take(DropFirst(s, w), w), DropFirst(s, 2 * w);
      MergePermutes(p, q, cmp);
      PassPermutes(last, w, cmp);
      assert multiset(s) == multiset(p) + (multiset(q) + multiset(last));
    }
  }

  lemma {:induction false} PassesPermute<T(!new)>(s: seq<Handle<T>>, w: nat, cmp: (T, T) -> int)
    requires w > 0
    ensures multiset(MergePasses(s, w, cmp)) == multiset(s)
    decreases |s| - w
  {
    PassPermutes(s, w, cmp);
    if |s| > 2 * w { PassesPermute(MergePass(s, w, cmp), 2 * w, cmp); }
  }

  // ----- Stability

  predicate Ties<T>(a: T, b: T, cmp: (T, T) -> int) { cmp(a, b) <= 0 && cmp(b, a) <= 0 }

  // The items that tie with x, in order.
  function Tied<T>(s: seq<Handle<T>>, x: T, cmp: (T, T) -> int): seq<Handle<T>>
  {
    if s == [] then [] else (if Ties(s[0].elem, x, cmp) then [s[0]] else []) + Tied(s[1..], x, cmp)
  }

  lemma {:induction false} TiedConcat<T>(a: seq<Handle<T>>, b: seq<Handle<T>>, x: T, cmp: (T, T) -> int)
    ensures Tied(a + b, x, cmp) == Tied(a, x, cmp) + Tied(b, x, cmp)
  {
    if a == [] {
      assert a + b == b;
    } else {
      assert (a + b)[1..] == a[1..] + b && (a + b)[0] == a[0];
      TiedConcat(a[1..], b, x, cmp);
      var t := if Ties(a[0].elem, x, cmp) then [a[0]] else [];
      assert Tied(a + b, x, cmp) == t + Tied(a[1..] + b, x, cmp) && Tied(a, x, cmp) == t + Tied(a[1..], x, cmp);
      hide Tied, Ties;
      assert t + (Tied(a[1..], x, cmp) + Tied(b, x, cmp)) == (t + Tied(a[1..], x, cmp)) + Tied(b, x, cmp);
    }
  }

  // Nothing in a sorted sequence above y ties with what y ties with.
  lemma {:induction false} NoTies<T(!new)>(s: seq<Handle<T>>, y: T, x: T, cmp: (T, T) -> int)
    requires Orders(cmp) && Sorted(s, cmp) && Ties(y, x, cmp) && (s != [] ==> cmp(s[0].elem, y) > 0)
    ensures Tied(s, x, cmp) == []
  {
    if s != [] {
      if s[1..] != [] { assert s[1] == s[1..][0] && s[1] in s[1..]; }
      NoTies(s[1..], y, x, cmp);
    }
  }

  lemma {:induction false} MergeStable<T(!new)>(p: seq<Handle<T>>, q: seq<Handle<T>>, x: T, cmp: (T, T) -> int)
    requires Orders(cmp) && Sorted(p, cmp) && Sorted(q, cmp)
    ensures Tied(Merge(p, q, cmp), x, cmp) == Tied(p, x, cmp) + Tied(q, x, cmp)
  {
    hide Orders, Ties;
    if p != [] && q != [] {
      if cmp(p[0].elem, q[0].elem) <= 0 {
        MergeStable(p[1..], q, x, cmp);
        assert Merge(p, q, cmp)[1..] == Merge(p[1..], q, cmp);
      } else {
        MergeStable(p, q[1..], x, cmp);
        assert Merge(p, q, cmp)[1..] == Merge(p, q[1..], cmp);
        if Ties(q[0].elem, x, cmp) { NoTies(p, q[0].elem, x, cmp); }
      }
    }
  }

  lemma RunsOfParts<T(!new)>(s: seq<Handle<T>>, w: nat, cmp: (T, T) -> int)
    requires w > 0 && Runs(s, w, cmp) && s != []
    ensures Sorted(Take(s, w), cmp) && Sorted(Take(DropFirst(s, w), w), cmp) && Runs(DropFirst(s, 2 * w), w, cmp)
  {
    ThreeParts(s, w);
    hide Take, DropFirst;
  }

  lemma {:induction false} PassStable<T(!new)>(s: seq<Handle<T>>, w: nat, x: T, cmp: (T, T) -> int)
    requires w > 0 && Orders(cmp) && Runs(s, w, cmp)
    ensures Tied(MergePass(s, w, cmp), x, cmp) == Tied(s, x, cmp)
    decreases |s|
  {
    if s != [] {
      hide Take, DropFirst, Merge, Tied, Ties, Orders, Sorted;
      ThreeParts(s, w);
      var p, q, last := Take(s, w), Take(DropFirst(s, w), w), DropFirst(s, 2 * w);
      RunsOfParts(s, w, cmp);
      MergeStable(p, q, x, cmp);
      PassStable(last, w, x, cmp);
      TiedConcat(Merge(p, q, cmp), MergePass(last, w, cmp), x, cmp);
      TiedConcat(q, last, x, cmp);
      TiedConcat(p, q + last, x, cmp);
    }
  }

  lemma {:induction false} PassesStable<T(!new)>(s: seq<Handle<T>>, w: nat, x: T, cmp: (T, T) -> int)
    requires w > 0 && Orders(cmp) && Runs(s, w, cmp)
    ensures Tied(MergePasses(s, w, cmp), x, cmp) == Tied(s, x, cmp)
    decreases |s| - w
  {
    PassStable(s, w, x, cmp);
    if |s| > 2 * w {
      PassDoublesRuns(s, w, cmp);
      PassesStable(MergePass(s, w, cmp), 2 * w, x, cmp);
    }
  }

  function Sort<T>(s: seq<Handle<T>>, cmp: (T, T) -> int): seq<Handle<T>> { MergePasses(s, 1, cmp) }

  // For a comparison that is a total preorder, the sort is a sorted, stable
  // permutation.
  lemma SortSorts<T(!new)>(s: seq<Handle<T>>, cmp: (T, T) -> int)
    requires Orders(cmp)
    ensures Sorted(Sort(s, cmp), cmp)
    ensures multiset(Sort(s, cmp)) == multiset(s)
    ensures forall x :: Tied(Sort(s, cmp), x, cmp) == Tied(s, x, cmp)
  {
    ShortRuns(s, cmp);
    PassesSort(s, 1, cmp);
    PassesPermute(s, 1, cmp);
    forall x ensures Tied(Sort(s, cmp), x, cmp) == Tied(s, x, cmp) { PassesStable(s, 1, x, cmp); }
  }
}
