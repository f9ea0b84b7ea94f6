// The growable byte buffer with a cursor: mark <= position <= limit <= capacity.

module DyBufs {
  import opened Bits
  import opened Bytes
  import opened CodecBits

  const CACHE_SIZE_UNIT: nat := 16

  function Max(a: nat, b: nat): nat { if a >= b then a else b }

  function Min(a: nat, b: nat): nat { if a <= b then a else b }

  // The capacity after room was made up to position p.
  function Grown(capacity: nat, p: nat): nat
  {
    if p <= capacity then capacity else Max(CACHE_SIZE_UNIT, p)
  }

  function Drop(s: seq<byte>, n: nat): seq<byte>
  {
    if n <= |s| then s[n..] else []
  }

  lemma DropTwice(s: seq<byte>, m: nat, n: nat)
    ensures Drop(Drop(s, m), n) == Drop(s, m + n)
  {}

  lemma SliceOfPrefix(s: seq<byte>, c: nat, i: nat, j: nat)
    requires i <= j <= c <= |s|
    ensures s[i..j] == s[..c][i..j]
  {}

  class DyBuf {
    var data: array<byte>
    var capacity: nat
    var limit: nat
    var position: nat
    var mark: nat
    const fixedCapacity: bool

    ghost predicate Valid()
      reads this
    {
      mark <= position <= limit <= capacity == data.Length <= UINT_MAX
    }

    // The bytes before the cursor and those between cursor and limit.
    ghost function Written(): seq<byte>
      requires Valid()
      reads this, data
    {
      data[..position]
    }

    ghost function Pending(): seq<byte>
      requires Valid()
      reads this, data
    {
      data[position..limit]
    }

    // Room for n more bytes: below 4 GiB, and inside a capacity that may not grow.
    ghost predicate HasRoom(n: nat)
      reads this
    {
      position + n <= UINT_MAX && (fixedCapacity ==> position + n <= capacity)
    }

    // The effect of writing bs at the cursor: what was before stays, and so
    // does everything behind the new cursor up to the old limit.
    twostate predicate Appended(bs: seq<byte>)
      reads this, data
    {
      old(Valid()) && Valid() && (data == old(data) || fresh(data)) && mark == old(mark)
      && Written() == old(Written()) + bs
      && Pending() == Drop(old(Pending()), |bs|)
      && limit == Max(old(limit), position)
      && capacity == Grown(old(capacity), position)
      && (fixedCapacity ==> data == old(data))
    }

    // The effect of reading n bytes.
    twostate predicate Consumed(n: nat)
      reads this, data
    {
      old(Valid()) && Valid() && data == old(data) && mark == old(mark) && limit == old(limit)
      && capacity == old(capacity) && position == old(position) + n
    }

    constructor Create(size: nat)
      requires size <= UINT_MAX
      ensures Valid() && fresh(data) && !fixedCapacity
      ensures Written() == [] && Pending() == [] && capacity == Max(CACHE_SIZE_UNIT, size)
    {
      var n := Max(CACHE_SIZE_UNIT, size);
      data := new byte[n](_ => 0);
      capacity := n;
      limit, position, mark := 0, 0, 0;
      fixedCapacity := false;
    }

    constructor Refer(bytes: array<byte>, forWrite: bool)
      requires bytes.Length <= UINT_MAX
      ensures Valid() && data == bytes && fixedCapacity && capacity == bytes.Length
      ensures Written() == [] && Pending() == if forWrite then [] else bytes[..]
    {
      data := bytes;
      capacity := bytes.Length;
      limit := if forWrite then 0 else bytes.Length;
      position, mark := 0, 0;
      fixedCapacity := true;
    }

    // A fresh data block of the given size, the three marks cut back to it.
    twostate predicate Resized(size: nat)
      reads this, data
    {
      old(Valid()) && Valid() && fresh(data) && capacity == size
      && limit == Min(old(limit), size) && position == Min(old(position), size) && mark == Min(old(mark), size)
      && forall i :: 0 <= i < Min(old(capacity), size) ==> data[i] == old(data[i])
    }

    method SetCapacity(newCapacity: nat) returns (ok: bool)
      requires Valid() && newCapacity <= UINT_MAX
      modifies this
      ensures Valid() && ok == (!fixedCapacity || newCapacity == old(capacity))
      ensures !ok || newCapacity == old(capacity) ==> unchanged(this)
      ensures ok && newCapacity != old(capacity) ==> Resized(Max(CACHE_SIZE_UNIT, newCapacity))
    {
      if fixedCapacity && newCapacity != capacity { return false; }
      if newCapacity == capacity { return true; }
      var size := Max(CACHE_SIZE_UNIT, newCapacity);
      var newData := new byte[size](_ => 0);
      forall i | 0 <= i < Min(capacity, size) { newData[i] := data[i]; }
      capacity := size;
      data := newData;
      if limit >= capacity { limit := capacity; }
      if position >= capacity { position := capacity; }
      if mark >= capacity { mark := capacity; }
      return true;
    }

    method SetPosition(newPosition: nat) returns (ok: bool)
      requires Valid()
      modifies `position
      ensures Valid() && ok == (newPosition <= limit)
      ensures position == if ok then Max(newPosition, mark) else old(position)
    {
      if newPosition > limit { return false; }
      if newPosition < mark { position := mark; } else { position := newPosition; }
      return true;
    }

    method SetLimit(newLimit: nat) returns (ok: bool)
      requires Valid() && newLimit <= UINT_MAX
      modifies this
      ensures Valid() && ok == (newLimit <= old(capacity) || !fixedCapacity)
      ensures !ok ==> unchanged(this)
      ensures ok ==> limit == newLimit && capacity == Grown(old(capacity), newLimit)
      ensures ok ==>
        capacity == if newLimit <= old(capacity) then old(capacity) else if newLimit < 16 then 16 else newLimit
      ensures ok ==> mark == Min(old(mark), newLimit) && position == Min(old(position), newLimit)
      ensures ok && newLimit <= old(capacity) ==> data == old(data)
      ensures ok && newLimit > old(capacity) ==> fresh(data) && data[..old(capacity)] == old(data[..])
    {
      if newLimit > capacity {
        var grew := SetCapacity(newLimit);
        if !grew { return false; }
        assert data[..old(capacity)] == old(data[..]);
      }
      limit := newLimit;
      if mark > limit { mark := limit; }
      if position > limit { position := limit; }
      return true;
    }

    // The `if (_position + n > _limit) dyb_set_limit(...)` of every append.
    method Reserve(n: nat)
      requires Valid() && HasRoom(n)
      modifies this
      ensures Valid() && (data == old(data) || fresh(data)) && mark == old(mark)
      ensures position == old(position) && Written() == old(Written())
      ensures limit == Max(old(limit), position + n) && capacity == Grown(old(capacity), position + n)
      ensures data[position..old(limit)] == old(Pending())
      ensures fixedCapacity ==> data == old(data)
    {
      if position + n > limit {
        ghost var before, c := data[..], capacity;
        var _ := SetLimit(position + n);
        assert data[..c] == before;
        SliceOfPrefix(data[..], c, 0, position);
        SliceOfPrefix(data[..], c, position, old(limit));
        assert data[..][..c] == before;
      }
    }

    // `_data[_position++] = b`
    method Put(b: byte)
      requires Valid() && position < limit
      modifies `position, data
      ensures Valid() && position == old(position) + 1
      ensures Written() == old(Written()) + [b]
      ensures Pending() == old(Pending())[1..]
    {
      data[position] := b;
      position := position + 1;
    }

    // `_data[_position++]`
    method Get() returns (b: byte)
      requires Valid() && Pending() != []
      modifies `position
      ensures Consumed(1) && b == old(Pending())[0]
    {
      b := data[position];
      position := position + 1;
    }

    method Compact()
      requires Valid()
      modifies this, data
      ensures Valid() && data == old(data) && capacity == old(capacity)
      ensures mark == position == 0 && Pending() == old(Pending())
    {
      if position == 0 { return; }
      var size := limit - position;
      ghost var s := Pending();
      forall i | 0 <= i < size { data[i] := data[position + i]; }
      limit := size;
      position := 0;
      mark := 0;
      assert Pending() == s;
    }

    function Remainder(): (r: nat)
      requires Valid()
      reads this
      ensures r == limit - position
    {
      limit - position
    }

    method SetMark()
      requires Valid()
      modifies `mark
      ensures Valid() && mark == position
    {
      mark := position;
    }

    method Reset()
      requires Valid()
      modifies `position
      ensures Valid() && position == mark
    {
      position := mark;
    }

    method Clear()
      requires Valid()
      modifies this
      ensures Valid() && data == old(data) && position == mark == 0 && limit == capacity == old(capacity)
    {
      position := 0;
      mark := 0;
      limit := capacity;
    }

    method Flip()
      requires Valid()
      modifies this
      ensures Valid() && data == old(data) && capacity == old(capacity) && position == mark == 0
      ensures Pending() == old(Written())
    {
      limit := position;
      position := 0;
      mark := 0;
    }

    method Rewind()
      requires Valid()
      modifies this
      ensures Valid() && data == old(data) && capacity == old(capacity) && limit == old(limit)
      ensures position == mark == 0
    {
      position := 0;
      mark := 0;
    }

    // Of the n bytes of v, all but the last k are written behind w, with rest
    // behind the place of the n bytes.
    ghost predicate Putting(v: nat, k: nat, n: nat, w: seq<byte>, rest: seq<byte>)
      reads this, data
    {
      Valid() && k <= n && |Pending()| >= k && Written() == w + BE(n, v)[..n - k] && Drop(Pending(), k) == rest
    }

    // `_data[_position++] = (v >> 8k) & 0xff`, the k-th last of the n bytes of v
    // written after w; rest is what has to stay behind them.
    method PutOctet(v: nat, k: nat, ghost n: nat, ghost w: seq<byte>, ghost rest: seq<byte>)
      requires Putting(v, k + 1, n, w, rest)
      modifies `position, data
      ensures Putting(v, k, n, w, rest) && position == old(position) + 1
    {
      OctetsOfBE(n, v, n - 1 - k);
      Put(Octet(v, k));
      assert BE(n, v)[..n - k] == BE(n, v)[..n - 1 - k] + [Octet(v, k)];
    }

    // Two, and four, octets in a row.
    method PutTwo(v: nat, k: nat, ghost n: nat, ghost w: seq<byte>, ghost rest: seq<byte>)
      requires Putting(v, k + 2, n, w, rest)
      modifies `position, data
      ensures Putting(v, k, n, w, rest) && position == old(position) + 2
    {
      hide Putting;
      PutOctet(v, k + 1, n, w, rest);
      PutOctet(v, k, n, w, rest);
    }

    method PutFour(v: nat, k: nat, ghost n: nat, ghost w: seq<byte>, ghost rest: seq<byte>)
      requires Putting(v, k + 4, n, w, rest)
      modifies `position, data
      ensures Putting(v, k, n, w, rest) && position == old(position) + 4
    {
      hide Putting;
      PutTwo(v, k + 2, n, w, rest);
      PutTwo(v, k, n, w, rest);
    }

    // Room for an n-byte number.
    method ReserveOctets(v: nat, n: nat)
      requires Valid() && HasRoom(n)
      modifies this
      ensures Putting(v, n, n, old(Written()), Drop(old(Pending()), n)) && (data == old(data) || fresh(data))
      ensures mark == old(mark) && position == old(position) && (fixedCapacity ==> data == old(data))
      ensures limit == Max(old(limit), position + n) && capacity == Grown(old(capacity), position + n)
    {
      ghost var p := Pending();
      Reserve(n);
      assert Written() == old(Written()) + BE(n, v)[..0];
      assert Drop(Pending(), n) == Drop(p, n) by { BehindReserved(data[..], position, old(limit), limit, n); }
    }

    static lemma BehindReserved(s: seq<byte>, p: nat, l: nat, l': nat, n: nat)
      requires p <= l <= |s| && l' == Max(l, p + n) <= |s|
      ensures Drop(s[p..l'], n) == Drop(s[p..l], n)
    {}

    lemma AllPut(v: nat, n: nat, w: seq<byte>, rest: seq<byte>)
      requires Putting(v, 0, n, w, rest)
      ensures Valid() && Written() == w + BE(n, v) && Pending() == rest
    {
      assert BE(n, v)[..n] == BE(n, v);
    }

    // `v | ((b & 0xff) << k)` when v holds the bytes p.
    static method OrByte(v: nat, b: byte, k: nat, ghost p: seq<byte>) returns (r: nat)
      requires v == Value(p) * Pow2(k + 8)
      ensures r == Value(p + [b]) * Pow2(k)
    {
      r := BitOr(v, Shl(BitAnd(b, 0xFF), k));
      OrOctet(p, b, k);
    }

    // i bytes of s have been read, and v holds them k bits up.
    ghost predicate Taking(v: nat, k: nat, s: seq<byte>, i: nat)
      reads this, data
    {
      Valid() && i <= |s| && Pending() == s[i..] && v == Value(s[..i]) * Pow2(k)
    }

    // `v |= (_data[_position++] & 0xff) << k`
    method OrNext(v: nat, k: nat, ghost s: seq<byte>, ghost i: nat) returns (r: nat)
      requires Taking(v, k + 8, s, i) && i < |s|
      modifies `position
      ensures Taking(r, k, s, i + 1) && position == old(position) + 1
    {
      hide Value, Pow2;
      var b := Get();
      r := OrByte(v, b, k, s[..i]);
      assert s[..i + 1] == s[..i] + [b];
    }

    method OrNextFour(v: nat, k: nat, ghost s: seq<byte>, ghost i: nat) returns (r: nat)
      requires Taking(v, k + 32, s, i) && i + 4 <= |s|
      modifies `position
      ensures Taking(r, k, s, i + 4) && position == old(position) + 4
    {
      hide Taking;
      r := OrNext(v, k + 24, s, i);
      r := OrNext(r, k + 16, s, i + 1);
      r := OrNext(r, k + 8, s, i + 2);
      r := OrNext(r, k, s, i + 3);
    }

    method OrNextThree(v: nat, k: nat, ghost s: seq<byte>, ghost i: nat) returns (r: nat)
      requires Taking(v, k + 24, s, i) && i + 3 <= |s|
      modifies `position
      ensures Taking(r, k, s, i + 3) && position == old(position) + 3
    {
      hide Taking;
      r := OrNext(v, k + 16, s, i);
      r := OrNext(r, k + 8, s, i + 1);
      r := OrNext(r, k, s, i + 2);
    }

    lemma NoneTaken(k: nat)
      requires Valid()
      ensures Taking(0, k, Pending(), 0) && SoFar(0, k, 0)
    {
      assert Value(Pending()[..0]) == 0;
    }

    lemma AllTaken(v: nat, s: seq<byte>, n: nat)
      requires Taking(v, 0, s, n)
      ensures Valid() && v == Value(s[..n])
    {
      assert Pow2(0) == 1;
    }

    // v holds the first i pending bytes, k bits up.
    ghost predicate SoFar(v: nat, k: nat, i: nat)
      reads this, data
    {
      Valid() && i <= |Pending()| && v == Value(Pending()[..i]) * Pow2(k)
    }

    // `v | ((_data[_position + i] & 0xff) << k)`
    method OrAt(v: nat, k: nat, i: nat) returns (r: nat)
      requires SoFar(v, k + 8, i) && i < |Pending()|
      ensures SoFar(r, k, i + 1)
    {
      hide Value, Pow2;
      r := OrByte(v, data[position + i], k, Pending()[..i]);
      assert Pending()[..i + 1] == Pending()[..i] + [Pending()[i]];
    }

    lemma AllSeen(v: nat, n: nat)
      requires SoFar(v, 0, n)
      ensures v == Value(Pending()[..n])
    {
      assert Pow2(0) == 1;
    }

    // memcpy of a whole block to the cursor.
    method AppendBlock(bs: seq<byte>)
      requires Valid() && HasRoom(|bs|)
      modifies this, data
      ensures Appended(bs)
    {
      ghost var rest := Drop(Pending(), |bs|);
      Reserve(|bs|);
      assert Drop(Pending(), |bs|) == rest;
      CopyIn(bs);
    }

    method CopyIn(bs: seq<byte>)
      requires Valid() && |Pending()| >= |bs|
      modifies `position, data
      ensures Valid() && position == old(position) + |bs|
      ensures Written() == old(Written()) + bs && Pending() == old(Pending())[|bs|..]
    {
      forall i | 0 <= i < |bs| { data[position + i] := bs[i]; }
      position := position + |bs|;
    }

    method AppendBool(v: bool)
      requires Valid() && HasRoom(1)
      modifies this, data
      ensures Appended([if v then 1 else 0])
    {
      Reserve(1);
      Put(if v then 1 else 0);
    }

    method NextBool() returns (v: bool)
      requires Valid() && Pending() != []
      modifies `position
      ensures Consumed(1) && v == (old(Pending())[0] != 0)
    {
      var b := Get();
      v := b != 0;
    }

    method AppendU8(v: nat)
      requires Valid() && HasRoom(1)
      modifies this, data
      ensures Appended(BE(1, v))
    {
      hide Putting;
      ghost var w, rest := Written(), Drop(Pending(), 1);
      ReserveOctets(v, 1);
      PutOctet(v, 0, 1, w, rest);
      AllPut(v, 1, w, rest);
    }

    method AppendU16(v: nat)
      requires Valid() && HasRoom(2)
      modifies this, data
      ensures Appended(BE(2, v))
    {
      hide Putting;
      ghost var w, rest := Written(), Drop(Pending(), 2);
      ReserveOctets(v, 2);
      PutTwo(v, 0, 2, w, rest);
      AllPut(v, 2, w, rest);
    }

    method AppendU24(v: nat)
      requires Valid() && HasRoom(3)
      modifies this, data
      ensures Appended(BE(3, v))
    {
      hide Putting;
      ghost var w, rest := Written(), Drop(Pending(), 3);
      ReserveOctets(v, 3);
      PutOctet(v, 2, 3, w, rest);
      PutTwo(v, 0, 3, w, rest);
      AllPut(v, 3, w, rest);
    }

    method AppendU32(v: nat)
      requires Valid() && HasRoom(4)
      modifies this, data
      ensures Appended(BE(4, v))
    {
      hide Putting;
      ghost var w, rest := Written(), Drop(Pending(), 4);
      ReserveOctets(v, 4);
      PutFour(v, 0, 4, w, rest);
      AllPut(v, 4, w, rest);
    }

    method AppendU40(v: nat)
      requires Valid() && HasRoom(5)
      modifies this, data
      ensures Appended(BE(5, v))
    {
      hide Putting;
      ghost var w, rest := Written(), Drop(Pending(), 5);
      ReserveOctets(v, 5);
      PutOctet(v, 4, 5, w, rest);
      PutFour(v, 0, 5, w, rest);
      AllPut(v, 5, w, rest);
    }

    method AppendU48(v: nat)
      requires Valid() && HasRoom(6)
      modifies this, data
      ensures Appended(BE(6, v))
    {
      hide Putting;
      ghost var w, rest := Written(), Drop(Pending(), 6);
      ReserveOctets(v, 6);
      PutTwo(v, 4, 6, w, rest);
      PutFour(v, 0, 6, w, rest);
      AllPut(v, 6, w, rest);
    }

    method AppendU56(v: nat)
      requires Valid() && HasRoom(7)
      modifies this, data
      ensures Appended(BE(7, v))
    {
      hide Putting;
      ghost var w, rest := Written(), Drop(Pending(), 7);
      ReserveOctets(v, 7);
      PutOctet(v, 6, 7, w, rest);
      PutTwo(v, 4, 7, w, rest);
      PutFour(v, 0, 7, w, rest);
      AllPut(v, 7, w, rest);
    }

    method AppendU64(v: nat)
      requires Valid() && HasRoom(8)
      modifies this, data
      ensures Appended(BE(8, v))
    {
      hide Putting;
      ghost var w, rest := Written(), Drop(Pending(), 8);
      ReserveOctets(v, 8);
      PutFour(v, 4, 8, w, rest);
      PutFour(v, 0, 8, w, rest);
      AllPut(v, 8, w, rest);
    }

    method NextU8() returns (v: nat)
      requires Valid() && |Pending()| >= 1
      modifies `position
      ensures Consumed(1) && v == Value(old(Pending())[..1])
    {
      hide Taking, SoFar, Value;
      ghost var s := Pending();
      NoneTaken(8);
      v := OrNext(0, 0, s, 0);
      AllTaken(v, s, 1);
    }

    method NextU16() returns (v: nat)
      requires Valid() && |Pending()| >= 2
      modifies `position
      ensures Consumed(2) && v == Value(old(Pending())[..2])
    {
      hide Taking, SoFar, Value;
      ghost var s := Pending();
      NoneTaken(16);
      v := OrNext(0, 8, s, 0);
      v := OrNext(v, 0, s, 1);
      AllTaken(v, s, 2);
    }

    method NextU24() returns (v: nat)
      requires Valid() && |Pending()| >= 3
      modifies `position
      ensures Consumed(3) && v == Value(old(Pending())[..3])
    {
      hide Taking, SoFar, Value;
      ghost var s := Pending();
      NoneTaken(24);
      v := OrNext(0, 16, s, 0);
      v := OrNext(v, 8, s, 1);
      v := OrNext(v, 0, s, 2);
      AllTaken(v, s, 3);
    }

    method NextU32() returns (v: nat)
      requires Valid() && |Pending()| >= 4
      modifies `position
      ensures Consumed(4) && v == Value(old(Pending())[..4])
    {
      hide Taking, SoFar, Value;
      ghost var s := Pending();
      NoneTaken(32);
      v := OrNextFour(0, 0, s, 0);
      AllTaken(v, s, 4);
    }

    method NextU40() returns (v: nat)
      requires Valid() && |Pending()| >= 5
      modifies `position
      ensures Consumed(5) && v == Value(old(Pending())[..5])
    {
      hide Taking, SoFar, Value;
      ghost var s := Pending();
      NoneTaken(40);
      v := OrNext(0, 32, s, 0);
      v := OrNextFour(v, 0, s, 1);
      AllTaken(v, s, 5);
    }

    method NextU48() returns (v: nat)
      requires Valid() && |Pending()| >= 6
      modifies `position
      ensures Consumed(6) && v == Value(old(Pending())[..6])
    {
      hide Taking, SoFar, Value;
      ghost var s := Pending();
      NoneTaken(48);
      v := OrNext(0, 40, s, 0);
      v := OrNext(v, 32, s, 1);
      v := OrNextFour(v, 0, s, 2);
      AllTaken(v, s, 6);
    }

    method NextU56() returns (v: nat)
      requires Valid() && |Pending()| >= 7
      modifies `position
      ensures Consumed(7) && v == Value(old(Pending())[..7])
    {
      hide Taking, SoFar, Value;
      ghost var s := Pending();
      NoneTaken(56);
      v := OrNextThree(0, 32, s, 0);
      v := OrNextFour(v, 0, s, 3);
      AllTaken(v, s, 7);
    }

    method NextU64() returns (v: nat)
      requires Valid() && |Pending()| >= 8
      modifies `position
      ensures Consumed(8) && v == Value(old(Pending())[..8])
    {
      hide Taking, SoFar, Value;
      ghost var s := Pending();
      NoneTaken(64);
      v := OrNextFour(0, 32, s, 0);
      v := OrNextFour(v, 0, s, 4);
      AllTaken(v, s, 8);
    }

    method PeekU8() returns (v: nat)
      requires Valid() && |Pending()| >= 1
      ensures v == Value(Pending()[..1])
    {
      hide Taking, SoFar, Value;
      NoneTaken(8);
      v := OrAt(0, 0, 0);
      AllSeen(v, 1);
    }

    method PeekU16() returns (v: nat)
      requires Valid() && |Pending()| >= 2
      ensures v == Value(Pending()[..2])
    {
      hide Taking, SoFar, Value;
      NoneTaken(16);
      v := OrAt(0, 8, 0);
      v := OrAt(v, 0, 1);
      AllSeen(v, 2);
    }

    method PeekU24() returns (v: nat)
      requires Valid() && |Pending()| >= 3
      ensures v == Value(Pending()[..3])
    {
      hide Taking, SoFar, Value;
      NoneTaken(24);
      v := OrAt(0, 16, 0);
      v := OrAt(v, 8, 1);
      v := OrAt(v, 0, 2);
      AllSeen(v, 3);
    }

    method PeekU32() returns (v: nat)
      requires Valid() && |Pending()| >= 4
      ensures v == Value(Pending()[..4])
    {
      hide Taking, SoFar, Value;
      NoneTaken(32);
      v := OrAt(0, 24, 0);
      v := OrAt(v, 16, 1);
      v := OrAt(v, 8, 2);
      v := OrAt(v, 0, 3);
      AllSeen(v, 4);
    }
  }
}
