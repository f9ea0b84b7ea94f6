// compare_mmobjs and the comparators behind it, on values without cycles.

module Comparison {
  import opened Bits
  import opened Bytes

  // The `sorted` flag of a map is not part of the value: no comparator looks
  // at it. Data without bytes is the null pointer of the source.
  datatype Value =
    | IntV(i: int32)
    | LongV(l: int64)
    | StringV(s: cstring)
    | DataV(d: seq<byte>)
    | ListV(items: seq<Value>)
    | MapV(entries: seq<Entry>)

  // A map item: the key and what it stands for.
  datatype Entry = Entry(key: Value, val: Value)

  datatype Class = MMData | MMInt | MMList | MMLong | MMMap | MMString

  function ClassOf(v: Value): Class
  {
    match v
    case IntV(_) => MMInt
    case LongV(_) => MMLong
    case StringV(_) => MMString
    case DataV(_) => MMData
    case ListV(_) => MMList
    case MapV(_) => MMMap
  }

  // The class names in ASCII; all of them start with "MM".
  function Name(c: Class): (s: cstring)
  {
    [77, 77] + Letters(c)
  }

  function Letters(c: Class): (s: cstring)
  {
    match c
    case MMData => [68, 97, 116, 97]
    case MMInt => [73, 110, 116]
    case MMList => [76, 105, 115, 116]
    case MMLong => [76, 111, 110, 103]
    case MMMap => [77, 97, 112]
    case MMString => [83, 116, 114, 105, 110, 103]
  }

  // Conversions to the widths of C's int and long long.
  function Int32(x: int): int32 { (x + 0x8000_0000) % 0x1_0000_0000 - 0x8000_0000 }

  function Int64(x: int): int64
  {
    (x + 0x8000_0000_0000_0000) % 0x1_0000_0000_0000_0000 - 0x8000_0000_0000_0000
  }

  // The sign that strcmp and memcmp give.
  function LexSign(s: seq<byte>, t: seq<byte>): int32
  {
    if LexLess(s, t) then -1 else if LexLess(t, s) then 1 else 0
  }

  function Min(a: nat, b: nat): nat { if a <= b then a else b }

  function CompareData(a: seq<byte>, b: seq<byte>): int32
  {
    if a == [] && b == [] then 0
    else if a == [] then -1
    else if b == [] then 1
    else
      var n := Min(|a|, |b|);
      var diff := LexSign(a[..n], b[..n]);
      if diff != 0 then diff else Int32(|a| - |b|)
  }

  function CompareLong(a: int64, b: int64): int32
  {
    var diff := Int64(a - b);
    if diff > 0 then 1 else if diff < 0 then -1 else 0
  }

  function Compare(a: Value, b: Value): int32
    decreases a
  {
    if ClassOf(a) != ClassOf(b) then LexSign(Name(ClassOf(a)), Name(ClassOf(b)))
    else
      match a
      case IntV(i) => Int32(i - b.i)
      case LongV(l) => CompareLong(l, b.l)
      case StringV(s) => LexSign(s, b.s)
      case DataV(d) => CompareData(d, b.d)
      case ListV(items) =>
        if |items| != |b.items| then Int32(|items| - |b.items|) else CompareItems(items, b.items)
      case MapV(entries) =>
        if |entries| != |b.entries| then Int32(|entries| - |b.entries|)
        else CompareEntries(entries, b.entries)
  }

  function CompareItems(a: seq<Value>, b: seq<Value>): int32
    requires |a| == |b|
    decreases a
  {
    if a == [] then 0
    else
      var diff := Compare(a[0], b[0]);
      if diff != 0 then diff else CompareItems(a[1..], b[1..])
  }

  function CompareEntries(a: seq<Entry>, b: seq<Entry>): int32
    requires |a| == |b|
    decreases a
  {
    if a == [] then 0
    else
      var diff := CompareEntry(a[0], b[0]);
      if diff != 0 then diff else CompareEntries(a[1..], b[1..])
  }

  // Keys first, then values; also what compareForMMMapItem computes.
  function CompareEntry(a: Entry, b: Entry): int32
    decreases a
  {
    var diff := Compare(a.key, b.key);
    if diff != 0 then diff else Compare(a.val, b.val)
  }

  // ----- The loops of the source

  method CompareMmobjs(a: Value, b: Value) returns (diff: int32)
    ensures diff == Compare(a, b)
    decreases a, 1
  {
    if ClassOf(a) != ClassOf(b) {
      return LexSign(Name(ClassOf(a)), Name(ClassOf(b)));
    }
    match a
    case IntV(i) => diff := Int32(i - b.i);
    case LongV(l) => diff := CompareLong(l, b.l);
    case StringV(s) => diff := LexSign(s, b.s);
    case DataV(d) => diff := CompareData(d, b.d);
    case ListV(items) => diff := CompareForMMList(items, b.items);
    case MapV(entries) => diff := CompareForMMMap(entries, b.entries);
  }

  method CompareForMMList(a: seq<Value>, b: seq<Value>) returns (diff: int32)
    ensures diff == if |a| != |b| then Int32(|a| - |b|) else CompareItems(a, b)
    decreases a, 0
  {
    if |a| != |b| { return Int32(|a| - |b|); }
    var i := 0;
    while i < |a|
      invariant 0 <= i <= |a|
      invariant CompareItems(a, b) == CompareItems(a[i..], b[i..])
    {
      diff := CompareMmobjs(a[i], b[i]);
      if diff != 0 { return; }
      assert a[i..][1..] == a[i + 1..] && b[i..][1..] == b[i + 1..];
      i := i + 1;
    }
    return 0;
  }

  method CompareForMMMapItem(a: Entry, b: Entry) returns (diff: int32)
    ensures diff == CompareEntry(a, b)
    decreases a, 0
  {
    diff := CompareMmobjs(a.key, b.key);
    if diff != 0 { return; }
    diff := CompareMmobjs(a.val, b.val);
  }

  method CompareForMMMap(a: seq<Entry>, b: seq<Entry>) returns (diff: int32)
    ensures diff == if |a| != |b| then Int32(|a| - |b|) else CompareEntries(a, b)
    decreases a, 0
  {
    if |a| != |b| { return Int32(|a| - |b|); }
    var i := 0;
    while i < |a|
      invariant 0 <= i <= |a|
      invariant CompareEntries(a, b) == CompareEntries(a[i..], b[i..])
    {
      diff := CompareForMMMapItem(a[i], b[i]);
      if diff != 0 { return; }
      assert a[i..][1..] == a[i + 1..] && b[i..][1..] == b[i + 1..];
      i := i + 1;
    }
    return 0;
  }

  // ----- The order they compute

  // Values in one window differ by less than half the range of their width,
  // so no difference of the comparators overflows.
  datatype Window = Window(low: int, lowLong: int)

  predicate Tame(v: Value, w: Window)
  {
    match v
    case IntV(i) => w.low <= i < w.low + 0x8000_0000
    case LongV(l) => w.lowLong <= l < w.lowLong + 0x8000_0000_0000_0000
    case StringV(_) => true
    case DataV(d) => |d| < 0x8000_0000
    case ListV(items) => |items| < 0x8000_0000 && forall x | x in items :: Tame(x, w)
    case MapV(entries) => |entries| < 0x8000_0000 && forall e | e in entries :: Tame(e.key, w) && Tame(e.val, w)
  }

  // A value spelled as a word of numbers: its class, then its parts. The
  // dictionary order of these words is the order of values.
  function Word(v: Value): seq<int>
  {
    match v
    case DataV(d) => [0] + Terminated(d)
    case IntV(i) => [1, i]
    case ListV(items) => [2, |items|] + Words(items)
    case LongV(l) => [3, l]
    case MapV(entries) => [4, |entries|] + EntryWords(entries)
    case StringV(s) => [5] + Terminated(s)
  }

  function Words(items: seq<Value>): seq<int>
  {
    if items == [] then [] else Word(items[0]) + Words(items[1..])
  }

  function EntryWords(entries: seq<Entry>): seq<int>
  {
    if entries == [] then [] else EntryWord(entries[0]) + EntryWords(entries[1..])
  }

  function EntryWord(e: Entry): seq<int> { Word(e.key) + Word(e.val) }

  // Ends with a mark that is below every byte.
  function Terminated(s: seq<byte>): seq<int>
  {
    if s == [] then [-1] else [s[0]] + Terminated(s[1..])
  }

  // What a comparison result r says about two words: it decides their order
  // whatever follows them, or they are the same word of the same thing.
  predicate Decided(r: int, u: seq<int>, v: seq<int>, x: seq<int>, y: seq<int>, same: bool)
  {
    (r == 0 <==> same)
    && (r < 0 ==> LexLess(u + x, v + y))
    && (r > 0 ==> LexLess(v + y, u + x))
  }

  lemma {:induction false} LexAfter(p: seq<int>, s: seq<int>, t: seq<int>)
    ensures LexLess(p + s, p + t) == LexLess(s, t)
  {
    if p == [] {
      assert p + s == s && p + t == t;
    } else {
      assert (p + s)[1..] == p[1..] + s && (p + t)[1..] == p[1..] + t;
      LexAfter(p[1..], s, t);
    }
  }

  lemma ClassesByName(c: Class, d: Class)
    requires c != d
    ensures LexSign(Name(c), Name(d)) == if Rank(c) < Rank(d) then -1 else 1
  {
    LexAfter([77, 77], Letters(c), Letters(d));
    LexAfter([77, 77], Letters(d), Letters(c));
    TwoLetters(Letters(c), Letters(d));
    TwoLetters(Letters(d), Letters(c));
  }

  lemma TwoLetters(s: seq<int>, t: seq<int>)
    requires |s| >= 2 && |t| >= 2 && (s[0] != t[0] || s[1] != t[1])
    ensures LexLess(s, t) <==> s[0] < t[0] || (s[0] == t[0] && s[1] < t[1])
  {
    assert s[1..][0] == s[1] && t[1..][0] == t[1];
  }

  function Rank(c: Class): nat
  {
    match c
    case MMData => 0
    case MMInt => 1
    case MMList => 2
    case MMLong => 3
    case MMMap => 4
    case MMString => 5
  }

  lemma WordStartsWithRank(v: Value)
    ensures Word(v) != [] && Word(v)[0] == Rank(ClassOf(v))
  {}

  lemma SmallDifference(a: int, b: int)
    requires -0x8000_0000 <= a - b < 0x8000_0000
    ensures Int32(a - b) == a - b
  {}

  lemma SmallLongDifference(a: int64, b: int64)
    requires -0x8000_0000_0000_0000 <= a - b < 0x8000_0000_0000_0000
    ensures Int64(a - b) == a - b
  {}

  // Compare decides every pair of values of one window.
  lemma {:induction false} CompareDecides(a: Value, b: Value, w: Window, x: seq<int>, y: seq<int>)
    requires Tame(a, w) && Tame(b, w)
    ensures Decided(Compare(a, b), Word(a), Word(b), x, y, a == b)
    decreases a, 1
  {
    if ClassOf(a) != ClassOf(b) {
      ClassesByName(ClassOf(a), ClassOf(b));
      WordStartsWithRank(a);
      WordStartsWithRank(b);
    } else {
      match a
      case IntV(i) => SmallDifference(i, b.i); TwoNumbers(1, i, b.i, x, y);
      case LongV(l) => SmallLongDifference(l, b.l); TwoNumbers(3, l, b.l, x, y);
      case StringV(s) => StringDecides(s, b.s, x, y);
      case DataV(d) => DataDecides(d, b.d, x, y);
      case ListV(items) => ListDecides(items, b.items, w, x, y);
      case MapV(entries) => MapDecides(entries, b.entries, w, x, y);
    }
  }

  lemma TwoNumbers(tag: int, m: int, n: int, x: seq<int>, y: seq<int>)
    ensures m < n ==> LexLess([tag, m] + x, [tag, n] + y)
    ensures n < m ==> LexLess([tag, n] + y, [tag, m] + x)
  {
    var s, t := [tag, m] + x, [tag, n] + y;
    assert s[1..] == [m] + x && t[1..] == [n] + y;
  }

  lemma Tagged(tag: int, u: seq<int>, v: seq<int>, x: seq<int>, y: seq<int>)
    ensures LexLess(([tag] + u) + x, ([tag] + v) + y) == LexLess(u + x, v + y)
  {
    assert ([tag] + u) + x == [tag] + (u + x) && ([tag] + v) + y == [tag] + (v + y);
    LexAfter([tag], u + x, v + y);
  }

  lemma {:induction false} TerminatedDecides(s: seq<byte>, t: seq<byte>, x: seq<int>, y: seq<int>)
    ensures Decided(LexSign(s, t), Terminated(s), Terminated(t), x, y, s == t)
  {
    LexTotal(s, t);
    if s != [] && t != [] && s[0] == t[0] {
      TerminatedDecides(s[1..], t[1..], x, y);
      assert s == [s[0]] + s[1..] && t == [t[0]] + t[1..];
      Tagged(s[0], Terminated(s[1..]), Terminated(t[1..]), x, y);
      Tagged(s[0], Terminated(t[1..]), Terminated(s[1..]), y, x);
    }
  }

  lemma StringDecides(s: cstring, t: cstring, x: seq<int>, y: seq<int>)
    ensures Decided(LexSign(s, t), Word(StringV(s)), Word(StringV(t)), x, y, s == t)
  {
    TerminatedDecides(s, t, x, y);
    Tagged(5, Terminated(s), Terminated(t), x, y);
    Tagged(5, Terminated(t), Terminated(s), y, x);
  }

  // memcmp of the common length, then the lengths: the order of strings.
  lemma {:induction false} CommonPrefixDecides(s: seq<byte>, t: seq<byte>)
    ensures var n := Min(|s|, |t|);
      (LexLess(s, t) <==> LexLess(s[..n], t[..n]) || (s[..n] == t[..n] && |s| < |t|))
  {
    if s != [] && t != [] {
      var n := Min(|s|, |t|);
      CommonPrefixDecides(s[1..], t[1..]);
      assert s[..n][1..] == s[1..][..n - 1] && t[..n][1..] == t[1..][..n - 1];
      assert s[..n] == [s[0]] + s[1..][..n - 1] && t[..n] == [t[0]] + t[1..][..n - 1];
    }
  }

  lemma DataIsLexicographic(s: seq<byte>, t: seq<byte>)
    requires |s| < 0x8000_0000 && |t| < 0x8000_0000
    ensures CompareData(s, t) < 0 <==> LexSign(s, t) < 0
    ensures CompareData(s, t) == 0 <==> LexSign(s, t) == 0
  {
    var n := Min(|s|, |t|);
    CommonPrefixDecides(s, t);
    CommonPrefixDecides(t, s);
    LexTotal(s, t);
    LexTotal(s[..n], t[..n]);
    SmallDifference(|s|, |t|);
  }

  lemma DataDecides(s: seq<byte>, t: seq<byte>, x: seq<int>, y: seq<int>)
    requires |s| < 0x8000_0000 && |t| < 0x8000_0000
    ensures Decided(CompareData(s, t), Word(DataV(s)), Word(DataV(t)), x, y, s == t)
  {
    DataIsLexicographic(s, t);
    TerminatedDecides(s, t, x, y);
    Tagged(0, Terminated(s), Terminated(t), x, y);
    Tagged(0, Terminated(t), Terminated(s), y, x);
  }

  lemma {:induction false} ListDecides(a: seq<Value>, b: seq<Value>, w: Window, x: seq<int>, y: seq<int>)
    requires Tame(ListV(a), w) && Tame(ListV(b), w)
    ensures Decided(Compare(ListV(a), ListV(b)), Word(ListV(a)), Word(ListV(b)), x, y, a == b)
    decreases a, 1
  {
    SmallDifference(|a|, |b|);
    Sized(2, |a|, Words(a), x);
    Sized(2, |b|, Words(b), y);
    TwoNumbers(2, |a|, |b|, Words(a) + x, Words(b) + y);
    if |a| == |b| {
      ItemsDecide(a, b, w, x, y);
      LexAfter([2, |a|], Words(a) + x, Words(b) + y);
      LexAfter([2, |a|], Words(b) + y, Words(a) + x);
    }
  }

  lemma Sized(tag: int, n: int, u: seq<int>, x: seq<int>)
    ensures ([tag, n] + u) + x == [tag, n] + (u + x)
  {}

  lemma {:induction false} MapDecides(a: seq<Entry>, b: seq<Entry>, w: Window, x: seq<int>, y: seq<int>)
    requires Tame(MapV(a), w) && Tame(MapV(b), w)
    ensures Decided(Compare(MapV(a), MapV(b)), Word(MapV(a)), Word(MapV(b)), x, y, a == b)
    decreases a, 1
  {
    SmallDifference(|a|, |b|);
    Sized(4, |a|, EntryWords(a), x);
    Sized(4, |b|, EntryWords(b), y);
    TwoNumbers(4, |a|, |b|, EntryWords(a) + x, EntryWords(b) + y);
    if |a| == |b| {
      EntriesDecide(a, b, w, x, y);
      LexAfter([4, |a|], EntryWords(a) + x, EntryWords(b) + y);
      LexAfter([4, |a|], EntryWords(b) + y, EntryWords(a) + x);
    }
  }

  // Two parts in a row: the first decides, or is the same and the second does.
  lemma InSequence(r: int, u: seq<int>, v: seq<int>, q: int, u': seq<int>, v': seq<int>, x: seq<int>, y: seq<int>,
                   same: bool, same': bool)
    requires Decided(r, u, v, u' + x, v' + y, same) && (same ==> u == v)
    requires r == 0 ==> Decided(q, u', v', x, y, same')
    ensures Decided(if r != 0 then r else q, u + u', v + v', x, y, same && same')
  {
    assert (u + u') + x == u + (u' + x) && (v + v') + y == v + (v' + y);
    if r == 0 {
      LexAfter(u, u' + x, v' + y);
      LexAfter(u, v' + y, u' + x);
    }
  }

  lemma {:induction false} ItemsDecide(a: seq<Value>, b: seq<Value>, w: Window, x: seq<int>, y: seq<int>)
    requires |a| == |b|
    requires forall v | v in a :: Tame(v, w)
    requires forall v | v in b :: Tame(v, w)
    ensures Decided(CompareItems(a, b), Words(a), Words(b), x, y, a == b)
    decreases a, 0
  {
    if a != [] {
      CompareDecides(a[0], b[0], w, Words(a[1..]) + x, Words(b[1..]) + y);
      ItemsDecide(a[1..], b[1..], w, x, y);
      assert a == [a[0]] + a[1..] && b == [b[0]] + b[1..];
      InSequence(Compare(a[0], b[0]), Word(a[0]), Word(b[0]), CompareItems(a[1..], b[1..]),
                 Words(a[1..]), Words(b[1..]), x, y, a[0] == b[0], a[1..] == b[1..]);
    }
  }

  lemma {:induction false} EntriesDecide(a: seq<Entry>, b: seq<Entry>, w: Window, x: seq<int>, y: seq<int>)
    requires |a| == |b|
    requires forall e | e in a :: Tame(e.key, w) && Tame(e.val, w)
    requires forall e | e in b :: Tame(e.key, w) && Tame(e.val, w)
    ensures Decided(CompareEntries(a, b), EntryWords(a), EntryWords(b), x, y, a == b)
    decreases a, 0
  {
    if a != [] {
      EntryDecides(a[0], b[0], w, EntryWords(a[1..]) + x, EntryWords(b[1..]) + y);
      EntriesDecide(a[1..], b[1..], w, x, y);
      assert a == [a[0]] + a[1..] && b == [b[0]] + b[1..];
      InSequence(CompareEntry(a[0], b[0]), EntryWord(a[0]), EntryWord(b[0]),
                 CompareEntries(a[1..], b[1..]), EntryWords(a[1..]), EntryWords(b[1..]), x, y,
                 a[0] == b[0], a[1..] == b[1..]);
    }
  }

  lemma {:induction false} EntryDecides(a: Entry, b: Entry, w: Window, x: seq<int>, y: seq<int>)
    requires Tame(a.key, w) && Tame(a.val, w) && Tame(b.key, w) && Tame(b.val, w)
    ensures Decided(CompareEntry(a, b), EntryWord(a), EntryWord(b), x, y, a == b)
    decreases a, 0
  {
    CompareDecides(a.key, b.key, w, Word(a.val) + x, Word(b.val) + y);
    CompareDecides(a.val, b.val, w, x, y);
    InSequence(Compare(a.key, b.key), Word(a.key), Word(b.key), Compare(a.val, b.val), Word(a.val), Word(b.val), x, y,
               a.key == b.key, a.val == b.val);
  }

  // Lists of one length compare as their first items that differ.
  lemma {:induction false} FirstItemsThatDiffer(a: seq<Value>, b: seq<Value>, k: nat)
    requires |a| == |b| && k < |a| && a[..k] == b[..k] && Compare(a[k], b[k]) != 0
    ensures Compare(ListV(a), ListV(b)) == Compare(a[k], b[k])
  {
    hide Compare;
    if k > 0 {
      assert a[0] == a[..k][0] && b[0] == b[..k][0];
      SelfCompare(a[0]);
      assert a[1..][..k - 1] == a[..k][1..] && b[1..][..k - 1] == b[..k][1..];
      FirstItemsThatDiffer(a[1..], b[1..], k - 1);
    }
    ListsByItems(a, b);
    if k > 0 { ListsByItems(a[1..], b[1..]); }
  }

  lemma ListsByItems(a: seq<Value>, b: seq<Value>)
    requires |a| == |b|
    ensures Compare(ListV(a), ListV(b)) == CompareItems(a, b)
  {}

  // Maps of one size compare as their first entries that differ: by the keys,
  // and by the values if the keys are the same.
  lemma {:induction false} FirstEntriesThatDiffer(a: seq<Entry>, b: seq<Entry>, k: nat)
    requires |a| == |b| && k < |a| && a[..k] == b[..k]
    ensures Compare(a[k].key, b[k].key) != 0 ==> Compare(MapV(a), MapV(b)) == Compare(a[k].key, b[k].key)
    ensures a[k].key == b[k].key && Compare(a[k].val, b[k].val) != 0 ==>
      Compare(MapV(a), MapV(b)) == Compare(a[k].val, b[k].val)
  {
    hide Compare;
    if k > 0 {
      assert a[0] == a[..k][0] && b[0] == b[..k][0];
      SelfCompareEntry(a[0]);
      assert a[1..][..k - 1] == a[..k][1..] && b[1..][..k - 1] == b[..k][1..];
      FirstEntriesThatDiffer(a[1..], b[1..], k - 1);
      MapsByEntries(a[1..], b[1..]);
    }
    MapsByEntries(a, b);
    SelfCompare(a[k].key);
  }

  lemma MapsByEntries(a: seq<Entry>, b: seq<Entry>)
    requires |a| == |b|
    ensures Compare(MapV(a), MapV(b)) == CompareEntries(a, b)
  {}

  // Before anything else, sizes: the shorter list and the smaller map are less.
  lemma ShorterIsLess(a: seq<Value>, b: seq<Value>, c: seq<Entry>, d: seq<Entry>)
    ensures |a| < |b| < 0x8000_0000 ==> Compare(ListV(a), ListV(b)) < 0 && Compare(ListV(b), ListV(a)) > 0
    ensures |c| < |d| < 0x8000_0000 ==> Compare(MapV(c), MapV(d)) < 0 && Compare(MapV(d), MapV(c)) > 0
  {
    if |a| < |b| < 0x8000_0000 { SmallDifference(|a|, |b|); SmallDifference(|b|, |a|); }
    if |c| < |d| < 0x8000_0000 { SmallDifference(|c|, |d|); SmallDifference(|d|, |c|); }
  }

  // Comparing an object with itself gives 0 in any case, so the shortcut on
  // equal pointers changes no result.
  lemma {:induction false} SelfCompare(v: Value)
    ensures Compare(v, v) == 0
    decreases v
  {
    match v
    case IntV(_) =>
    case LongV(_) =>
    case StringV(s) => LexIrreflexive(s);
    case DataV(d) => LexIrreflexive(d[..|d|]);
    case ListV(items) => SelfCompareItems(items);
    case MapV(entries) => SelfCompareEntries(entries);
  }

  lemma {:induction false} SelfCompareItems(items: seq<Value>)
    ensures CompareItems(items, items) == 0
    decreases items
  {
    if items != [] {
      SelfCompare(items[0]);
      SelfCompareItems(items[1..]);
    }
  }

  lemma {:induction false} SelfCompareEntries(entries: seq<Entry>)
    ensures CompareEntries(entries, entries) == 0
    decreases entries
  {
    if entries != [] {
      SelfCompareEntry(entries[0]);
      SelfCompareEntries(entries[1..]);
    }
  }

  lemma {:induction false} SelfCompareEntry(e: Entry)
    ensures CompareEntry(e, e) == 0
    decreases e
  {
    SelfCompare(e.key);
    SelfCompare(e.val);
  }

  // ----- Zero

  // Sizes are 32-bit words.
  predicate SizesFit(v: Value)
  {
    match v
    case DataV(d) => |d| < 0x1_0000_0000
    case ListV(items) => |items| < 0x1_0000_0000 && forall x | x in items :: SizesFit(x)
    case MapV(entries) => |entries| < 0x1_0000_0000 && forall e | e in entries :: SizesFit(e.key) && SizesFit(e.val)
    case _ => true
  }

  lemma ZeroDifference(m: int, n: int)
    requires -0x1_0000_0000 < m - n < 0x1_0000_0000
    ensures Int32(m - n) == 0 <==> m == n
  {}

  lemma ZeroData(s: seq<byte>, t: seq<byte>)
    requires |s| < 0x1_0000_0000 && |t| < 0x1_0000_0000
    ensures CompareData(s, t) == 0 <==> s == t
  {
    var n := Min(|s|, |t|);
    LexTotal(s[..n], t[..n]);
    ZeroDifference(|s|, |t|);
    assert s[..|s|] == s && t[..|t|] == t;
    LexIrreflexive(s);
  }

  // A wrapped difference of two numbers of one width is 0 only when they are
  // equal, so whatever overflows, 0 means equal.
  lemma {:induction false} ZeroOnlyOnEqualValues(a: Value, b: Value)
    requires SizesFit(a) && SizesFit(b)
    ensures Compare(a, b) == 0 <==> a == b
    decreases a
  {
    if ClassOf(a) != ClassOf(b) {
      ClassesByName(ClassOf(a), ClassOf(b));
    } else {
      match a
      case IntV(i) => ZeroDifference(i, b.i);
      case LongV(l) =>
      case StringV(s) => LexTotal(s, b.s);
      case DataV(d) => ZeroData(d, b.d);
      case ListV(items) => ZeroDifference(|items|, |b.items|); ZeroItems(items, b.items);
      case MapV(entries) => ZeroDifference(|entries|, |b.entries|); ZeroEntries(entries, b.entries);
    }
  }

  lemma {:induction false} ZeroItems(a: seq<Value>, b: seq<Value>)
    requires (forall x | x in a :: SizesFit(x)) && forall x | x in b :: SizesFit(x)
    ensures |a| == |b| ==> (CompareItems(a, b) == 0 <==> a == b)
    decreases a
  {
    if a != [] && b != [] {
      ZeroOnlyOnEqualValues(a[0], b[0]);
      ZeroItems(a[1..], b[1..]);
      assert a == [a[0]] + a[1..] && b == [b[0]] + b[1..];
    }
  }

  lemma {:induction false} ZeroEntries(a: seq<Entry>, b: seq<Entry>)
    requires forall e | e in a :: SizesFit(e.key) && SizesFit(e.val)
    requires forall e | e in b :: SizesFit(e.key) && SizesFit(e.val)
    ensures |a| == |b| ==> (CompareEntries(a, b) == 0 <==> a == b)
    decreases a
  {
    if a != [] && b != [] {
      ZeroEntry(a[0], b[0]);
      ZeroEntries(a[1..], b[1..]);
      assert a == [a[0]] + a[1..] && b == [b[0]] + b[1..];
    }
  }

  lemma {:induction false} ZeroEntry(a: Entry, b: Entry)
    requires SizesFit(a.key) && SizesFit(a.val) && SizesFit(b.key) && SizesFit(b.val)
    ensures CompareEntry(a, b) == 0 <==> a == b
    decreases a
  {
    ZeroOnlyOnEqualValues(a.key, b.key);
    ZeroOnlyOnEqualValues(a.val, b.val);
  }

  // ----- A total order

  lemma WordOrder(a: Value, b: Value, w: Window)
    requires Tame(a, w) && Tame(b, w)
    ensures Compare(a, b) == 0 <==> a == b
    ensures Compare(a, b) < 0 <==> LexLess(Word(a), Word(b))
    ensures Compare(a, b) > 0 <==> LexLess(Word(b), Word(a))
  {
    CompareDecides(a, b, w, [], []);
    assert Word(a) + [] == Word(a) && Word(b) + [] == Word(b);
    LexTotal(Word(a), Word(b));
  }

  lemma Antisymmetric(a: Value, b: Value, w: Window)
    requires Tame(a, w) && Tame(b, w)
    ensures Compare(a, b) < 0 <==> Compare(b, a) > 0
    ensures Compare(a, b) == 0 <==> Compare(b, a) == 0
  {
    WordOrder(a, b, w);
    WordOrder(b, a, w);
  }

  lemma Transitive(a: Value, b: Value, c: Value, w: Window)
    requires Tame(a, w) && Tame(b, w) && Tame(c, w)
    requires Compare(a, b) <= 0 && Compare(b, c) <= 0
    ensures Compare(a, c) <= 0
    ensures Compare(a, b) < 0 || Compare(b, c) < 0 ==> Compare(a, c) < 0
  {
    WordOrder(a, b, w);
    WordOrder(b, c, w);
    WordOrder(a, c, w);
    if a != b && b != c { LexTransitive(Word(a), Word(b), Word(c)); }
  }

  // The comparators of two numbers get the sign right exactly when the
  // difference fits its width.
  lemma IntSignIsRightExactlyInRange(a: int32, b: int32)
    ensures (Compare(IntV(a), IntV(b)) < 0 <==> a < b) && (Compare(IntV(a), IntV(b)) > 0 <==> a > b)
      <==> -0x8000_0000 <= a - b < 0x8000_0000
  {}

  lemma LongSignIsRightExactlyInRange(a: int64, b: int64)
    ensures (Compare(LongV(a), LongV(b)) < 0 <==> a < b) && (Compare(LongV(a), LongV(b)) > 0 <==> a > b)
      <==> -0x8000_0000_0000_0000 <= a - b < 0x8000_0000_0000_0000
  {}

  // Swapping the arguments swaps the sign, also of a wrong sign, unless the
  // difference is half the range: then it is its own negative.
  predicate Swaps(a: Value, b: Value) { Opposite(Compare(a, b), Compare(b, a)) }

  predicate Opposite(r: int, q: int) { (r < 0 <==> q > 0) && (r > 0 <==> q < 0) }

  lemma IntSwapsExactly(a: int32, b: int32)
    ensures Swaps(IntV(a), IntV(b)) <==> a - b != 0x8000_0000 && a - b != -0x8000_0000
  {}

  lemma LongSwapsExactly(a: int64, b: int64)
    ensures Swaps(LongV(a), LongV(b)) <==> a - b != 0x8000_0000_0000_0000 && a - b != -0x8000_0000_0000_0000
  {}

  // The first place where two values differ holds two numbers, or two sizes,
  // half the range apart.
  predicate HalfApart(a: Value, b: Value)
    decreases a
  {
    ClassOf(a) == ClassOf(b)
    && match a
       case IntV(i) => IsHalf(i - b.i)
       case LongV(l) => l - b.l == 0x8000_0000_0000_0000 || l - b.l == -0x8000_0000_0000_0000
       case StringV(_) => false
       case DataV(d) => d != [] && b.d != [] && (d <= b.d || b.d <= d) && IsHalf(|d| - |b.d|)
       case ListV(items) => if |items| != |b.items| then IsHalf(|items| - |b.items|) else ItemsHalfApart(items, b.items)
       case MapV(entries) =>
         if |entries| != |b.entries| then IsHalf(|entries| - |b.entries|) else EntriesHalfApart(entries, b.entries)
  }

  predicate IsHalf(d: int) { d == 0x8000_0000 || d == -0x8000_0000 }

  predicate ItemsHalfApart(a: seq<Value>, b: seq<Value>)
    requires |a| == |b|
    decreases a
  {
    a != [] && if a[0] != b[0] then HalfApart(a[0], b[0]) else ItemsHalfApart(a[1..], b[1..])
  }

  predicate EntriesHalfApart(a: seq<Entry>, b: seq<Entry>)
    requires |a| == |b|
    decreases a
  {
    a != [] && if a[0] != b[0] then EntryHalfApart(a[0], b[0]) else EntriesHalfApart(a[1..], b[1..])
  }

  predicate EntryHalfApart(a: Entry, b: Entry)
    decreases a
  {
    if a.key != b.key then HalfApart(a.key, b.key) else HalfApart(a.val, b.val)
  }

  lemma SwappedDifference(m: int, n: int)
    requires -0x1_0000_0000 < m - n < 0x1_0000_0000
    ensures Opposite(Int32(m - n), Int32(n - m)) <==> !IsHalf(m - n)
  {}

  lemma SwappedData(s: seq<byte>, t: seq<byte>)
    requires |s| < 0x1_0000_0000 && |t| < 0x1_0000_0000
    ensures Opposite(CompareData(s, t), CompareData(t, s)) <==> !HalfApart(DataV(s), DataV(t))
  {
    if s != [] && t != [] {
      var n := Min(|s|, |t|);
      LexTotal(s[..n], t[..n]);
      LexTotal(t[..n], s[..n]);
      SwappedDifference(|s|, |t|);
      assert s[..n] == t[..n] <==> s <= t || t <= s by {
        if s[..n] == t[..n] { assert s[..|s|] == s && t[..|t|] == t; }
      }
    }
  }

  // Antisymmetry of whole values, whatever overflows.
  lemma {:induction false} SwapsExactly(a: Value, b: Value)
    requires SizesFit(a) && SizesFit(b)
    ensures Swaps(a, b) <==> !HalfApart(a, b)
    decreases a
  {
    if ClassOf(a) != ClassOf(b) {
      ClassesByName(ClassOf(a), ClassOf(b));
      ClassesByName(ClassOf(b), ClassOf(a));
    } else {
      match a
      case IntV(i) => SwappedDifference(i, b.i);
      case LongV(l) => LongSwapsExactly(l, b.l);
      case StringV(s) => LexTotal(s, b.s); LexTotal(b.s, s);
      case DataV(d) => SwappedData(d, b.d);
      case ListV(items) => SwappedDifference(|items|, |b.items|); ItemsSwap(items, b.items);
      case MapV(entries) => SwappedDifference(|entries|, |b.entries|); EntriesSwap(entries, b.entries);
    }
  }

  lemma {:induction false} ItemsSwap(a: seq<Value>, b: seq<Value>)
    requires (forall x | x in a :: SizesFit(x)) && forall x | x in b :: SizesFit(x)
    ensures |a| == |b| ==> (Opposite(CompareItems(a, b), CompareItems(b, a)) <==> !ItemsHalfApart(a, b))
    decreases a
  {
    if a != [] && b != [] {
      SwapsExactly(a[0], b[0]);
      ZeroOnlyOnEqualValues(a[0], b[0]);
      ZeroOnlyOnEqualValues(b[0], a[0]);
      ItemsSwap(a[1..], b[1..]);
    }
  }

  lemma {:induction false} EntriesSwap(a: seq<Entry>, b: seq<Entry>)
    requires forall e | e in a :: SizesFit(e.key) && SizesFit(e.val)
    requires forall e | e in b :: SizesFit(e.key) && SizesFit(e.val)
    ensures |a| == |b| ==> (Opposite(CompareEntries(a, b), CompareEntries(b, a)) <==> !EntriesHalfApart(a, b))
    decreases a
  {
    if a != [] && b != [] {
      EntrySwaps(a[0], b[0]);
      ZeroEntry(a[0], b[0]);
      ZeroEntry(b[0], a[0]);
      EntriesSwap(a[1..], b[1..]);
    }
  }

  lemma {:induction false} EntrySwaps(a: Entry, b: Entry)
    requires SizesFit(a.key) && SizesFit(a.val) && SizesFit(b.key) && SizesFit(b.val)
    ensures Opposite(CompareEntry(a, b), CompareEntry(b, a)) <==> !EntryHalfApart(a, b)
    decreases a
  {
    SwapsExactly(a.key, b.key);
    ZeroOnlyOnEqualValues(a.key, b.key);
    ZeroOnlyOnEqualValues(b.key, a.key);
    SwapsExactly(a.val, b.val);
  }

  // A pair half the range apart: each of the two numbers is less than the other.
  lemma OverflowBreaksAntisymmetry()
    ensures Compare(IntV(-0x8000_0000), IntV(0)) < 0 && Compare(IntV(0), IntV(-0x8000_0000)) < 0
  {}
}
