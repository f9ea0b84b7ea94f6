// Anything appended to a buffer reads back in order: fixed-width integers and
// blocks behind a length of one byte, of two bytes or of variable width.

module BufferPieces {
  import opened Bits
  import opened Bytes
  import opened VarInt
  import opened DyBufs
  import opened Options
  import opened Codec

  // The kinds of piece: an integer of w bytes, a block behind n bytes of length
  // (1 or 2), a block behind a variable-width length.
  datatype Kind = NumKind(w: nat) | ShortKind(n: nat) | LongKind

  datatype Piece = Num(w: nat, v: nat) | Short(n: nat, data: seq<byte>) | Long(data: seq<byte>)
  {
    function Kind(): Kind
    {
      match this
      case Num(w, _) => NumKind(w)
      case Short(n, _) => ShortKind(n)
      case Long(_) => LongKind
    }

    predicate Sound()
    {
      match this
      case Num(w, _) => 1 <= w <= 8
      case Short(n, _) => n == 1 || n == 2
      case Long(data) => |data| <= UINT_MAX
    }

    // What was given can be told from what is written.
    predicate Fits()
    {
      match this
      case Num(w, v) => v < Pow256(w)
      case Short(n, data) => |data| < Pow256(n)
      case Long(data) => true
    }

    function Encode(): seq<byte>
      requires Sound()
    {
      match this
      case Num(w, v) => BE(w, v)
      case Short(n, data) => ShortEncode(n, data)
      case Long(data) => BlockEncode(data)
    }
  }

  // The length is cut to n bytes, and the data to the cut length.
  function Cut(n: nat, data: seq<byte>): (k: nat)
    ensures k <= |data|
  {
    ModAtMost(|data|, Pow256(n));
    |data| % Pow256(n)
  }

  lemma ModAtMost(a: nat, m: nat)
    requires m > 0
    ensures 0 <= a % m <= a
  {
    if a >= m { assert a % m < m; } else { SmallMod(a, m); }
  }

  function ShortEncode(n: nat, data: seq<byte>): seq<byte>
  {
    BE(n, |data|) + data[..Cut(n, data)]
  }

  // What reading a short block gives, and how many bytes it takes; the data is
  // null for a length of 0 or one beyond the limit.
  function ShortDecode(n: nat, s: seq<byte>): (r: (Option<seq<byte>>, nat))
    requires n <= |s|
  {
    var len := Value(s[..n]);
    if len == 0 || n + len > |s| then (None, n) else (Some(s[n..n + len]), n + len)
  }

  function Block(data: seq<byte>): Option<seq<byte>> { if data == [] then None else Some(data) }

  // Reading what was written gives the first bytes of the data, up to the cut
  // length, and takes exactly what was written.
  lemma ShortReadsCut(n: nat, data: seq<byte>, rest: seq<byte>)
    ensures n <= |ShortEncode(n, data) + rest|
    ensures ShortDecode(n, ShortEncode(n, data) + rest) == (Block(data[..Cut(n, data)]), |ShortEncode(n, data)|)
  {
    var k := Cut(n, data);
    var s := ShortEncode(n, data) + rest;
    LengthOfBE(n, |data|);
    ValueOfBE(n, |data|);
    assert s[..n] == BE(n, |data|);
    assert s[n..n + k] == data[..k];
  }

  lemma {:induction false} LengthOfBE(n: nat, v: nat)
    ensures |BE(n, v)| == n
  {}

  // A short block survives exactly when its length fits the length field.
  lemma ShortRoundTripsExactly(n: nat, data: seq<byte>, rest: seq<byte>)
    ensures n <= |ShortEncode(n, data) + rest|
    ensures ShortDecode(n, ShortEncode(n, data) + rest).0 == Block(data) <==> |data| < Pow256(n)
  {
    ShortReadsCut(n, data, rest);
    var k := Cut(n, data);
    if |data| < Pow256(n) {
      SmallMod(|data|, Pow256(n));
      assert data[..k] == data;
    } else {
      assert k < Pow256(n) <= |data|;
    }
  }

  // dyb_append_data_with_1byte_len
  method AppendDataWith1ByteLen(dyb: DyBuf, data: seq<byte>)
    requires dyb.Valid() && dyb.HasRoom(|ShortEncode(1, data)|)
    modifies dyb, dyb.data
    ensures dyb.Appended(ShortEncode(1, data))
  {
    LowBytes(|data|);
    var length := BitAnd(|data|, 0x00FF);
    ghost var p := dyb.Pending();
    dyb.AppendU8(length);
    dyb.AppendBlock(data[..length]);
    TwoAppends(old(dyb.Written()), p, BE(1, |data|), data[..length]);
  }

  // dyb_append_data_with_2bytes_len
  method AppendDataWith2BytesLen(dyb: DyBuf, data: seq<byte>)
    requires dyb.Valid() && dyb.HasRoom(|ShortEncode(2, data)|)
    modifies dyb, dyb.data
    ensures dyb.Appended(ShortEncode(2, data))
  {
    LowBytes(|data|);
    var length := BitAnd(|data|, 0x00FFFF);
    ghost var p := dyb.Pending();
    dyb.AppendU16(length);
    dyb.AppendBlock(data[..length]);
    TwoAppends(old(dyb.Written()), p, BE(2, |data|), data[..length]);
  }

  lemma TwoAppends(w: seq<byte>, p: seq<byte>, a: seq<byte>, b: seq<byte>)
    ensures (w + a) + b == w + (a + b) && Drop(Drop(p, |a|), |b|) == Drop(p, |a + b|)
  {}

  lemma LowBytes(v: nat)
    ensures BitAnd(v, 0x00FF) == v % Pow256(1) && BE(1, v % Pow256(1)) == BE(1, v)
    ensures BitAnd(v, 0x00FFFF) == v % Pow256(2) && BE(2, v % Pow256(2)) == BE(2, v)
  {
    hide BitAnd, BE, Pow2, Pow256;
    PowTable();
    Pow2Table();
    AndLowMask(v, 8);
    AndLowMask(v, 16);
    BEOfMod(1, v);
    BEOfMod(2, v);
  }

  lemma Pow2Table()
    ensures Pow2(8) == 0x100 && Pow2(16) == 0x1_0000
  {
    assert Pow2(4) == 16;
    assert Pow2(8) == 16 * Pow2(4);
    assert Pow2(12) == 16 * Pow2(8);
    assert Pow2(16) == 16 * Pow2(12);
  }

  lemma BEOfMod(n: nat, v: nat)
    ensures BE(n, v % Pow256(n)) == BE(n, v)
  {
    ValueOfBE(n, v);
    LengthOfBE(n, v);
    BEOfValue(BE(n, v));
  }

  // dyb_next_data_with_1byte_len
  method NextDataWith1ByteLen(dyb: DyBuf) returns (data: Option<seq<byte>>)
    requires dyb.Valid() && |dyb.Pending()| >= 1
    modifies dyb`position
    ensures var (d, taken) := ShortDecode(1, old(dyb.Pending())); data == d && dyb.Consumed(taken)
  {
    ghost var p := dyb.Pending();
    var len := dyb.NextU8();
    assert dyb.Pending() == p[1..];
    data := NextDataWithoutLen(dyb, len);
    SliceOfTail(p, 1, len);
  }

  // dyb_next_data_with_2bytes_len
  method NextDataWith2BytesLen(dyb: DyBuf) returns (data: Option<seq<byte>>)
    requires dyb.Valid() && |dyb.Pending()| >= 2
    modifies dyb`position
    ensures var (d, taken) := ShortDecode(2, old(dyb.Pending())); data == d && dyb.Consumed(taken)
  {
    ghost var p := dyb.Pending();
    var len := dyb.NextU16();
    assert dyb.Pending() == p[2..];
    data := NextDataWithoutLen(dyb, len);
    SliceOfTail(p, 2, len);
  }

  lemma SliceOfTail(p: seq<byte>, n: nat, len: nat)
    requires n <= |p|
    ensures n + len <= |p| ==> p[n..][..len] == p[n..n + len]
  {}

  // ----- Any interleaving

  function EncodePieces(ps: seq<Piece>): seq<byte>
    requires forall p | p in ps :: p.Sound()
  {
    if ps == [] then [] else ps[0].Encode() + EncodePieces(ps[1..])
  }

  function Kinds(ps: seq<Piece>): (r: seq<Kind>)
    ensures |r| == |ps| && forall i :: 0 <= i < |r| ==> r[i] == ps[i].Kind()
  {
    seq(|ps|, i requires 0 <= i < |ps| => ps[i].Kind())
  }

  method WriteNum(dyb: DyBuf, w: nat, v: nat)
    requires 1 <= w <= 8 && dyb.Valid() && dyb.HasRoom(w)
    modifies dyb, dyb.data
    ensures dyb.Appended(BE(w, v))
  {
    if w <= 4 {
      if w == 1 { dyb.AppendU8(v); } else if w == 2 { dyb.AppendU16(v); }
      else if w == 3 { dyb.AppendU24(v); } else { dyb.AppendU32(v); }
    } else {
      if w == 5 { dyb.AppendU40(v); } else if w == 6 { dyb.AppendU48(v); }
      else if w == 7 { dyb.AppendU56(v); } else { dyb.AppendU64(v); }
    }
  }

  method Write(dyb: DyBuf, p: Piece)
    requires p.Sound() && dyb.Valid() && dyb.HasRoom(|p.Encode()|)
    modifies dyb, dyb.data
    ensures dyb.Appended(p.Encode())
  {
    match p
    case Num(w, v) =>
      LengthOfBE(w, v);
      WriteNum(dyb, w, v);
    case Short(n, data) =>
      if n == 1 { AppendDataWith1ByteLen(dyb, data); } else { AppendDataWith2BytesLen(dyb, data); }
    case Long(data) => AppendDataWithVarLen(dyb, data);
  }

  method WriteAll(dyb: DyBuf, ps: seq<Piece>)
    requires (forall p | p in ps :: p.Sound()) && dyb.Valid() && dyb.HasRoom(|EncodePieces(ps)|)
    modifies dyb, dyb.data
    ensures dyb.Valid() && (dyb.data == old(dyb.data) || fresh(dyb.data))
    ensures dyb.Written() == old(dyb.Written()) + EncodePieces(ps)
  {
    if ps == [] {
      assert dyb.Written() + [] == dyb.Written();
      return;
    }
    Write(dyb, ps[0]);
    WriteAll(dyb, ps[1..]);
    Regroup(old(dyb.Written()), ps[0].Encode(), EncodePieces(ps[1..]));
  }

  method ReadNum(dyb: DyBuf, w: nat) returns (v: nat)
    requires 1 <= w <= 8 && dyb.Valid() && |dyb.Pending()| >= w
    modifies dyb`position
    ensures dyb.Consumed(w) && v == Value(old(dyb.Pending())[..w])
  {
    if w <= 4 {
      if w == 1 { v := dyb.NextU8(); } else if w == 2 { v := dyb.NextU16(); }
      else if w == 3 { v := dyb.NextU24(); } else { v := dyb.NextU32(); }
    } else {
      if w == 5 { v := dyb.NextU40(); } else if w == 6 { v := dyb.NextU48(); }
      else if w == 7 { v := dyb.NextU56(); } else { v := dyb.NextU64(); }
    }
  }

  function OrEmpty(d: Option<seq<byte>>): seq<byte> { if d.None? then [] else d.value }

  method ReadShort(dyb: DyBuf, n: nat, ghost data: seq<byte>, ghost rest: seq<byte>) returns (got: seq<byte>)
    requires (n == 1 || n == 2) && |data| < Pow256(n)
    requires dyb.Valid() && dyb.Pending() == ShortEncode(n, data) + rest
    modifies dyb`position
    ensures dyb.Valid() && got == data && dyb.Pending() == rest
  {
    ShortReadsCut(n, data, rest);
    ShortRoundTripsExactly(n, data, rest);
    ghost var size := |ShortEncode(n, data)|;
    assert dyb.Pending()[size..] == rest;
    var d;
    if n == 1 { d := NextDataWith1ByteLen(dyb); } else { d := NextDataWith2BytesLen(dyb); }
    got := OrEmpty(d);
  }

  method Read(dyb: DyBuf, kind: Kind, ghost p: Piece, ghost rest: seq<byte>) returns (got: Piece)
    requires p.Sound() && p.Fits() && kind == p.Kind() && dyb.Valid() && dyb.Pending() == p.Encode() + rest
    modifies dyb`position
    ensures dyb.Valid() && got == p && dyb.Pending() == rest
  {
    match kind
    case NumKind(w) =>
      NumReadsBack(w, p.v, rest);
      var v := ReadNum(dyb, w);
      got := Num(w, v);
    case ShortKind(n) =>
      var data := ReadShort(dyb, n, p.data, rest);
      got := Piece.Short(n, data);
    case LongKind =>
      var data := NextBlock(dyb, p.data, rest);
      got := Long(data);
  }

  lemma NumReadsBack(w: nat, v: nat, rest: seq<byte>)
    requires v < Pow256(w)
    ensures |BE(w, v)| == w && Value((BE(w, v) + rest)[..w]) == v && (BE(w, v) + rest)[w..] == rest
  {
    LengthOfBE(w, v);
    ValueOfBE(w, v);
    SmallMod(v, Pow256(w));
    assert (BE(w, v) + rest)[..w] == BE(w, v);
  }

  method ReadAll(dyb: DyBuf, kinds: seq<Kind>, ghost ps: seq<Piece>) returns (got: seq<Piece>)
    requires (forall p | p in ps :: p.Sound() && p.Fits()) && kinds == Kinds(ps)
    requires dyb.Valid() && dyb.Pending() == EncodePieces(ps)
    modifies dyb`position
    ensures dyb.Valid() && got == ps && dyb.Pending() == []
  {
    if kinds == [] { return []; }
    var first := Read(dyb, kinds[0], ps[0], EncodePieces(ps[1..]));
    var others := ReadAll(dyb, kinds[1..], ps[1..]);
    got := [first] + others;
  }

  // Pieces of any kinds, written one after the other into a new buffer and read
  // after a flip, come back as they were.
  method WriteThenRead(ps: seq<Piece>, kinds: seq<Kind>) returns (got: seq<Piece>)
    requires (forall p | p in ps :: p.Sound() && p.Fits()) && kinds == Kinds(ps)
    requires |EncodePieces(ps)| <= UINT_MAX
    ensures got == ps
  {
    var dyb := new DyBuf.Create(64);
    WriteAll(dyb, ps);
    assert dyb.Written() == EncodePieces(ps);
    dyb.Flip();
    got := ReadAll(dyb, kinds, ps);
  }
}
