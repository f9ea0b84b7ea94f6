// What the packer emits, as a function of the graph: objects are numbered in
// the order in which they are first referred to, and bodies follow in that order.

module Packing {
  import opened Bits
  import opened Bytes
  import opened ObjectGraph
  import opened Records

  datatype Packed = Packed(ids: seq<Ref>, names: seq<text>, recs: seq<Record>)

  // A root is packed by pack_mmobj or by pack_varint.
  datatype Root = ObjRoot(key: nat, r: Ref) | IntRoot(key: nat, v: int64)

  function AddOne(ids: seq<Ref>, r: Ref): (s: seq<Ref>)
    ensures r in s
  {
    if r in ids then ids else ids + [r]
  }

  function AddAll(ids: seq<Ref>, rs: seq<Ref>): seq<Ref>
    decreases rs
  {
    if rs == [] then ids else AddAll(AddOne(ids, rs[0]), rs[1..])
  }

  // The number of an object: its place in the order of first references.
  function NumOf(ids: seq<Ref>, r: Ref): (i: nat)
    requires r in ids
    ensures i < |ids| && ids[i] == r
  {
    if ids[0] == r then 0 else 1 + NumOf(ids[1..], r)
  }

  function Numbers(ids: seq<Ref>, rs: seq<Ref>): (nums: seq<nat>)
    requires forall r | r in rs :: r in ids
    ensures |nums| == |rs| && forall i :: 0 <= i < |rs| ==> nums[i] < |ids| && ids[nums[i]] == rs[i]
  {
    seq(|rs|, i requires 0 <= i < |rs| => NumOf(ids, rs[i]))
  }

  // References under one key, or under keys 0 and 1 in turn.
  function RefRecs(nums: seq<nat>): seq<Record>
  {
    seq(|nums|, i requires 0 <= i < |nums| => ObjRef(0, nums[i]))
  }

  function PairRecs(nums: seq<nat>): seq<Record>
  {
    seq(|nums|, i requires 0 <= i < |nums| => ObjRef(i % 2, nums[i]))
  }

  // The fields of a node, given the numbers of its children.
  function FieldRecs(n: Node, nums: seq<nat>): seq<Record>
  {
    match n
    case IntN(i) => [VarInt(0, i)]
    case LongN(l) => [VarInt(0, l)]
    case StringN(s) => [Raw(0, s + [0])]
    case DataN(d) => [Raw(0, d)]
    case ListN(items) => [ArrayStart(0, |items|)] + RefRecs(nums) + [ArrayEnd(0)]
    case MapN(sorted, entries) =>
      [VarInt(0, if sorted then 1 else 0), ArrayStart(1, 2 * |entries|)] + PairRecs(nums) + [ArrayEnd(1)]
  }

  function AddName(names: seq<text>, name: text): seq<text>
  {
    if name in names then names else names + [name]
  }

  function NameRecs(names: seq<text>, name: text): seq<Record>
  {
    if name in names then [] else [ClassDb(|names|, name)]
  }

  function NameNum(names: seq<text>, name: text): (i: nat)
    requires name in names
    ensures i < |names| && names[i] == name
  {
    if names[0] == name then 0 else 1 + NameNum(names[1..], name)
  }

  function BodyRecs(n: Node, i: nat, cls: nat, nums: seq<nat>): seq<Record>
  {
    [ObjStart(i, cls), NextContext(cls)] + FieldRecs(n, nums) + [ObjEnd(i)]
  }

  ghost predicate Numbered(ids: seq<Ref>, g: Graph)
  {
    (forall i :: 0 <= i < |ids| ==> ids[i] in g) && forall i, j :: 0 <= i < j < |ids| ==> ids[i] != ids[j]
  }

  // The body of object number i, after its class name if that is new.
  ghost function WithBody(p: Packed, g: Graph, i: nat): (q: Packed)
    requires Closed(g) && Numbered(p.ids, g) && i < |p.ids|
    ensures Numbered(q.ids, g) && p.ids <= q.ids && p.recs <= q.recs
  {
    var n := g[p.ids[i]];
    var names := AddName(p.names, NodeName(n));
    var ids := AddAll(p.ids, Children(n));
    AddAllNumbers(p.ids, Children(n), g);
    Packed(ids, names,
      p.recs + (NameRecs(p.names, NodeName(n)) +
                BodyRecs(n, i, NameNum(names, NodeName(n)), Numbers(ids, Children(n)))))
  }

  // The worklist from object number i on.
  ghost function Drained(p: Packed, g: Graph, i: nat): (q: Packed)
    requires Closed(g) && Numbered(p.ids, g) && i <= |p.ids|
    ensures Numbered(q.ids, g) && p.ids <= q.ids && p.recs <= q.recs
    decreases |g| - i
  {
    NumberedBound(p.ids, g);
    if i == |p.ids| then p else Drained(WithBody(p, g, i), g, i + 1)
  }

  // One call of pack_mmobj at the outermost level.
  ghost function WithRef(p: Packed, key: nat, r: Ref): (q: Packed)
    requires r != NULL
    ensures p.recs <= q.recs
  {
    var ids := AddOne(p.ids, r);
    Packed(ids, p.names, p.recs + [ObjRef(key, NumOf(ids, r))])
  }

  ghost function WithRoot(p: Packed, g: Graph, root: Root): (q: Packed)
    requires Closed(g) && Numbered(p.ids, g) && (root.ObjRoot? && root.r != NULL ==> root.r in g)
    ensures Numbered(q.ids, g) && p.ids <= q.ids && p.recs <= q.recs
  {
    match root
    case IntRoot(key, v) => p.(recs := p.recs + [VarInt(key, v)])
    case ObjRoot(key, r) => if r == NULL then p else Drained(WithRef(p, key, r), g, |p.ids|)
  }

  ghost predicate RootsIn(roots: seq<Root>, g: Graph)
  {
    forall root :: root in roots && root.ObjRoot? && root.r != NULL ==> root.r in g
  }

  const FRESH: Packed := Packed([], [], [Version(PACKER_VERSION_V1)])

  // A whole session of the packer.
  ghost function PackAll(g: Graph, roots: seq<Root>): (q: Packed)
    requires Closed(g) && RootsIn(roots, g)
    ensures Numbered(q.ids, g)
  {
    if roots == [] then FRESH
    else WithRoot(PackAll(g, roots[..|roots| - 1]), g, roots[|roots| - 1])
  }

  // ----- Numbering

  lemma {:induction false} AddAllNumbers(ids: seq<Ref>, rs: seq<Ref>, g: Graph)
    requires Numbered(ids, g) && forall r :: r in rs ==> r in g
    ensures Numbered(AddAll(ids, rs), g) && ids <= AddAll(ids, rs)
    ensures forall r :: r in rs ==> r in AddAll(ids, rs)
    decreases rs
  {
    if rs != [] {
      var ids' := AddOne(ids, rs[0]);
      AddAllNumbers(ids', rs[1..], g);
      forall r | r in rs ensures r in AddAll(ids, rs) {
        if r == rs[0] {
          var i :| 0 <= i < |ids'| && ids'[i] == r;
          assert AddAll(ids, rs)[i] == r;
        } else {
          assert r in rs[1..];
        }
      }
    }
  }

  lemma NumberedBound(ids: seq<Ref>, g: Graph)
    requires Numbered(ids, g)
    ensures |ids| <= |g|
  {
    var s := set i | 0 <= i < |ids| :: ids[i];
    DistinctSize(ids);
    assert s <= g.Keys;
    SubsetSize(s, g.Keys);
  }

  lemma SubsetSize(s: set<Ref>, t: set<Ref>)
    requires s <= t
    ensures |s| <= |t|
  {
    assert t == s + (t - s);
  }

  lemma {:induction false} DistinctSize(ids: seq<Ref>)
    requires forall i, j :: 0 <= i < j < |ids| ==> ids[i] != ids[j]
    ensures |set i | 0 <= i < |ids| :: ids[i]| == |ids|
  {
    if ids != [] {
      var rest := ids[..|ids| - 1];
      DistinctSize(rest);
      assert (set i | 0 <= i < |ids| :: ids[i]) == (set i | 0 <= i < |rest| :: rest[i]) + {ids[|ids| - 1]};
    }
  }

  // Numbers never change once given.
  lemma {:induction false} NumOfStable(ids: seq<Ref>, ids': seq<Ref>, r: Ref)
    requires ids <= ids' && r in ids
    ensures r in ids' && NumOf(ids', r) == NumOf(ids, r)
  {
    if ids[0] != r { NumOfStable(ids[1..], ids'[1..], r); }
  }

  lemma NumbersStable(ids: seq<Ref>, ids': seq<Ref>, rs: seq<Ref>)
    requires ids <= ids' && forall r :: r in rs ==> r in ids
    ensures (forall r :: r in rs ==> r in ids') && Numbers(ids', rs) == Numbers(ids, rs)
  {
    forall r | r in rs ensures r in ids' && NumOf(ids', r) == NumOf(ids, r) { NumOfStable(ids, ids', r); }
  }

  // ----- Adding one more

  lemma {:induction false} NumOfIs(ids: seq<Ref>, r: Ref, i: nat)
    requires i < |ids| && ids[i] == r && forall j :: 0 <= j < i ==> ids[j] != r
    ensures NumOf(ids, r) == i
  {
    if i > 0 { NumOfIs(ids[1..], r, i - 1); }
  }

  lemma {:induction false} NameNumIs(names: seq<text>, name: text, i: nat)
    requires i < |names| && names[i] == name && forall j :: 0 <= j < i ==> names[j] != name
    ensures NameNum(names, name) == i
  {
    if i > 0 { NameNumIs(names[1..], name, i - 1); }
  }

  lemma {:induction false} NumOfLast(ids: seq<Ref>, r: Ref)
    requires r !in ids
    ensures NumOf(ids + [r], r) == |ids|
  {
    if ids != [] {
      assert (ids + [r])[1..] == ids[1..] + [r];
      NumOfLast(ids[1..], r);
    }
  }

  lemma {:induction false} NameNumLast(names: seq<text>, name: text)
    requires name !in names
    ensures NameNum(names + [name], name) == |names|
  {
    if names != [] {
      assert (names + [name])[1..] == names[1..] + [name];
      NameNumLast(names[1..], name);
    }
  }

  lemma {:induction false} AddAllSnoc(ids: seq<Ref>, rs: seq<Ref>, r: Ref)
    ensures AddAll(ids, rs + [r]) == AddOne(AddAll(ids, rs), r)
    decreases rs
  {
    if rs == [] {
      assert [r][1..] == [] && rs + [r] == [r];
    } else {
      assert (rs + [r])[1..] == rs[1..] + [r];
      AddAllSnoc(AddOne(ids, rs[0]), rs[1..], r);
    }
  }

  lemma {:induction false} AddAllExtends(ids: seq<Ref>, rs: seq<Ref>)
    ensures ids <= AddAll(ids, rs)
    ensures forall r :: r in rs ==> r in AddAll(ids, rs)
    decreases rs
  {
    if rs != [] {
      AddAllExtends(AddOne(ids, rs[0]), rs[1..]);
      PrefixHolds(AddOne(ids, rs[0]), AddAll(ids, rs), rs[0]);
      assert rs == [rs[0]] + rs[1..];
    }
  }

  lemma PrefixHolds<T>(a: seq<T>, b: seq<T>, x: T)
    requires a <= b && x in a
    ensures x in b
  {
    var i :| 0 <= i < |a| && a[i] == x;
    assert b[i] == x;
  }

  lemma {:induction false} AddAllConcat(ids: seq<Ref>, a: seq<Ref>, b: seq<Ref>)
    ensures AddAll(ids, a + b) == AddAll(AddAll(ids, a), b)
    decreases a
  {
    if a == [] {
      assert a + b == b;
    } else {
      assert (a + b)[1..] == a[1..] + b;
      AddAllConcat(AddOne(ids, a[0]), a[1..], b);
    }
  }

  // Referring to the k-th child while the first k are numbered emits the
  // number it has in the end.
  lemma NextChild(ids: seq<Ref>, kids: seq<Ref>, k: nat, now: seq<Ref>)
    requires k < |kids| && now == AddAll(ids, kids[..k])
    ensures AddOne(now, kids[k]) == AddAll(ids, kids[..k + 1])
    ensures kids[k] in AddAll(ids, kids)
    ensures NumOf(AddOne(now, kids[k]), kids[k]) == NumOf(AddAll(ids, kids), kids[k])
  {
    assert kids[..k + 1] == kids[..k] + [kids[k]];
    AddAllSnoc(ids, kids[..k], kids[k]);
    assert kids == kids[..k + 1] + kids[k + 1..];
    AddAllConcat(ids, kids[..k + 1], kids[k + 1..]);
    AddAllExtends(AddAll(ids, kids[..k + 1]), kids[k + 1..]);
    NumOfStable(AddAll(ids, kids[..k + 1]), AddAll(ids, kids), kids[k]);
  }
}
