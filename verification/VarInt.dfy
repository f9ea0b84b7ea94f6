// The biased variable-length integer of dybuf, described by bands: a number in
// band k is written in k + 1 bytes, the first of which starts with k one bits.

module VarInt {
  import opened Bits
  import opened Bytes

  // First byte of the smallest encoding of band k: k ones, then zeros.
  function Lead(k: nat): nat
    requires k <= 9
  {
    [0x00, 0x80, 0xC0, 0xE0, 0xF0, 0xF8, 0xFC, 0xFE, 0xFF, 0x100][k]
  }

  // How many numbers band k holds, and the value its encodings start from
  // when read as a big-endian number.
  function Room(k: nat): (r: nat)
    requires k <= 8
    ensures r > 0
  {
    [0x80, 0x4000, 0x20_0000, 0x1000_0000, 0x8_0000_0000, 0x400_0000_0000, 0x2_0000_0000_0000,
     0x100_0000_0000_0000, 0x1_0000_0000_0000_0000][k]
  }

  function Base(k: nat): nat
    requires k <= 8
  {
    [0, 0x8000, 0xC0_0000, 0xE000_0000, 0xF0_0000_0000, 0xF800_0000_0000, 0xFC_0000_0000_0000,
     0xFE00_0000_0000_0000, 0xFF_0000_0000_0000_0000][k]
  }

  lemma Bands(k: nat)
    requires k <= 8
    ensures Base(k) == Lead(k) * Pow256(k)
    ensures Base(k) + Room(k) == Lead(k + 1) * Pow256(k)
    ensures Base(k) + Room(k) <= Pow256(k + 1)
  {
    PowTable();
  }

  lemma PowTable()
    ensures Pow256(0) == 1 && Pow256(1) == 256 && Pow256(2) == 0x1_0000 && Pow256(3) == 0x100_0000
    ensures Pow256(4) == 0x1_0000_0000 && Pow256(5) == 0x100_0000_0000 && Pow256(6) == 0x1_0000_0000_0000
    ensures Pow256(7) == 0x100_0000_0000_0000 && Pow256(8) == U64 && Pow256(9) == 256 * U64
  {}

  // Smallest number of band k.
  function Bias(k: nat): nat
    requires k <= 9
  {
    if k == 0 then 0 else Bias(k - 1) + Room(k - 1)
  }

  function BandFrom(v: nat, k: nat): (r: nat)
    requires k <= 8
    ensures k <= r <= 8
    decreases 8 - k
  {
    if k == 8 || v < Bias(k + 1) then k else BandFrom(v, k + 1)
  }

  function Band(v: nat): (r: nat)
    ensures r <= 8
  {
    BandFrom(v, 0)
  }

  function OnesFrom(b: byte, k: nat): (r: nat)
    requires k <= 8
    ensures k <= r <= 8
    decreases 8 - k
  {
    if k == 8 || b < Lead(k + 1) then k else OnesFrom(b, k + 1)
  }

  // Number of leading one bits of a byte.
  function Ones(b: byte): (r: nat)
    ensures r <= 8
  {
    OnesFrom(b, 0)
  }

  function VarEncode(v: uint64): (s: seq<byte>)
    ensures 1 <= |s| <= 9
  {
    BandFloor(v);
    var k := Band(v);
    BE(k + 1, Base(k) + (v - Bias(k)))
  }

  // The value and the number of bytes it took; Short if s is too short.
  datatype Decoded<T> = Short | Read(value: T, size: nat)

  function VarDecode(s: seq<byte>): (d: Decoded<uint64>)
    ensures d.Read? ==> 1 <= d.size <= 9 && d.size <= |s|
  {
    if |s| == 0 then Short
    else
      var k := Ones(s[0]);
      if |s| < k + 1 then Short
      else
        HeadBound(s[..k + 1]);
        Read((Value(s[..k + 1]) - Base(k) + Bias(k)) % U64, k + 1)
  }

  lemma LeadTable()
    ensures Lead(0) == 0 && Lead(1) == 0x80 && Lead(2) == 0xC0 && Lead(3) == 0xE0
    ensures Lead(4) == 0xF0 && Lead(5) == 0xF8 && Lead(6) == 0xFC && Lead(7) == 0xFE
    ensures Lead(8) == 0xFF && Lead(9) == 0x100
  {}

  // The bands tile the numbers below 2^64: they begin where the source says,
  // each where the one before ends, and band 8 reaches past 2^64.
  lemma BiasTable()
    ensures Bias(0) == 0 && Bias(1) == 0x80 && Bias(2) == 0x4080 && Bias(3) == 0x204080
    ensures Bias(4) == 0x10204080 && Bias(5) == 0x0810204080 && Bias(6) == 0x040810204080
    ensures Bias(7) == 0x02040810204080 && Bias(8) == 0x0102040810204080
    ensures Bias(9) >= U64
  {
    assert Bias(1) == 0x80;
    assert Bias(4) == 0x10204080;
    assert Bias(8) == 0x0102040810204080;
  }

  lemma {:induction false} BandFromFloor(v: nat, k: nat)
    requires k <= 8 && Bias(k) <= v
    ensures Bias(BandFrom(v, k)) <= v
    ensures BandFrom(v, k) == 8 || v < Bias(BandFrom(v, k) + 1)
    decreases 8 - k
  {
    if k < 8 && Bias(k + 1) <= v { BandFromFloor(v, k + 1); }
  }

  // A number lies in exactly the band it is assigned.
  lemma BandFloor(v: uint64)
    ensures Bias(Band(v)) <= v < Bias(Band(v)) + Room(Band(v))
  {
    BandFromFloor(v, 0);
    BiasTable();
    assert Bias(Band(v) + 1) == Bias(Band(v)) + Room(Band(v));
  }

  lemma {:induction false} BandFromIs(v: nat, j: nat, k: nat)
    requires j <= k <= 8 && Bias(k) <= v && (k == 8 || v < Bias(k + 1))
    ensures BandFrom(v, j) == k
    decreases k - j
  {
    if j < k {
      BiasGrows(j + 1, k);
      BandFromIs(v, j + 1, k);
    }
  }

  lemma {:induction false} BiasGrows(j: nat, k: nat)
    requires j <= k <= 9
    ensures Bias(j) <= Bias(k)
    decreases k
  {
    if j < k { BiasGrows(j, k - 1); }
  }

  lemma {:induction false} OnesFromIs(b: byte, j: nat, k: nat)
    requires j <= k <= 8 && Lead(k) <= b < Lead(k + 1)
    ensures OnesFrom(b, j) == k
    decreases k - j
  {
    LeadTable();
    if j < k { OnesFromIs(b, j + 1, k); }
  }

  lemma {:induction false} OnesFromFloor(b: byte, k: nat)
    requires k <= 8 && Lead(k) <= b
    ensures var r := OnesFrom(b, k); Lead(r) <= b < Lead(r + 1)
    decreases 8 - k
  {
    LeadTable();
    if k < 8 && Lead(k + 1) <= b { OnesFromFloor(b, k + 1); }
  }

  // The value of k + 1 bytes whose first byte has k leading ones.
  lemma HeadBound(s: seq<byte>)
    requires |s| > 0 && |s| == Ones(s[0]) + 1
    ensures var k := Ones(s[0]);
      0 <= Value(s) - Base(k) < Room(k)
  {
    var k := Ones(s[0]);
    OnesFromFloor(s[0], 0);
    SplitHead(s);
    HeadInBand(k, s[0], Value(s[1..]));
  }

  lemma SplitHead(s: seq<byte>)
    requires |s| > 0
    ensures Value(s) == s[0] * Pow256(|s| - 1) + Value(s[1..])
    ensures Value(s[1..]) < Pow256(|s| - 1)
  {
    assert s == [s[0]] + s[1..];
    ValueConcat([s[0]], s[1..]);
    ValueBound(s[1..]);
    assert Value([s[0]]) == s[0];
  }

  lemma HeadInBand(k: nat, b: byte, rest: nat)
    requires k <= 8 && rest < Pow256(k)
    ensures Lead(k) <= b < Lead(k + 1) <==> 0 <= b * Pow256(k) + rest - Base(k) < Room(k)
  {
    Bands(k);
    InBand(Lead(k), Lead(k + 1), b, Pow256(k), rest);
  }

  lemma InBand(lo: nat, hi: nat, b: nat, p: nat, rest: nat)
    requires rest < p && lo <= hi
    ensures lo <= b < hi <==> lo * p <= b * p + rest < hi * p
  {
    if b < lo { MulLess(b + 1, lo, p); } else { MulLess(lo, b, p); }
    if b < hi { MulLess(b + 1, hi, p); } else { MulLess(hi, b, p); }
  }

  // Conversely, a value in that range has a first byte with k leading ones.
  lemma HeadOf(s: seq<byte>, k: nat)
    requires k <= 8 && |s| == k + 1
    requires 0 <= Value(s) - Base(k) < Room(k)
    ensures Ones(s[0]) == k
  {
    SplitHead(s);
    HeadInBand(k, s[0], Value(s[1..]));
    OnesFromIs(s[0], 0, k);
  }

  lemma EncodedValue(v: uint64)
    ensures var k := Band(v); var e := VarEncode(v);
      |e| == k + 1 && Value(e) == Base(k) + (v - Bias(k)) && Ones(e[0]) == k
  {
    var k := Band(v);
    BandFloor(v);
    LeadTable();
    ValueInBand(k, v - Bias(k));
    HeadOf(VarEncode(v), k);
  }

  lemma ValueInBand(k: nat, off: nat)
    requires k <= 8 && off < Room(k)
    ensures Value(BE(k + 1, Base(k) + off)) == Base(k) + off
  {
    Bands(k);
    ValueOfBE(k + 1, Base(k) + off);
    SmallMod(Base(k) + off, Pow256(k + 1));
  }

  lemma SmallMod(x: nat, m: nat)
    requires x < m
    ensures x % m == x
  {}

  // Decoding an encoding gives the value back and takes exactly its bytes,
  // whatever follows them.
  lemma RoundTrip(v: uint64, rest: seq<byte>)
    ensures VarDecode(VarEncode(v) + rest) == Read(v, |VarEncode(v)|)
  {
    var e := VarEncode(v);
    EncodedValue(v);
    BandFloor(v);
    assert (e + rest)[..|e|] == e;
    SmallMod(v, U64);
  }

  // No encoding is a proper prefix of another.
  lemma PrefixFree(v: uint64, w: uint64)
    requires VarEncode(v) <= VarEncode(w)
    ensures v == w
  {
    var rest := VarEncode(w)[|VarEncode(v)|..];
    assert VarEncode(w) == VarEncode(v) + rest && VarEncode(w) == VarEncode(w) + [];
    RoundTrip(v, rest);
    RoundTrip(w, []);
  }

  // Byte order is numeric order.
  lemma OrderPreserving(v: uint64, w: uint64)
    ensures LexLess(VarEncode(v), VarEncode(w)) <==> v < w
  {
    if v < w { OrderForward(v, w); }
    else if w < v { OrderForward(w, v); LexTotal(VarEncode(v), VarEncode(w)); }
    else { LexIrreflexive(VarEncode(v)); }
  }

  lemma OrderForward(v: uint64, w: uint64)
    requires v < w
    ensures LexLess(VarEncode(v), VarEncode(w))
  {
    var j, k := Band(v), Band(w);
    var e, f := VarEncode(v), VarEncode(w);
    EncodedValue(v);
    EncodedValue(w);
    BandFloor(v);
    BandFloor(w);
    if j == k {
      LexIsNumeric(e, f);
    } else {
      if k < j { BiasGrows(k + 1, j); }
      OnesFromFloor(e[0], 0);
      OnesFromFloor(f[0], 0);
      LeadGrows(j + 1, k);
    }
  }

  lemma LeadGrows(j: nat, k: nat)
    requires j <= k <= 9
    ensures Lead(j) <= Lead(k)
  {
    LeadTable();
  }

  // A decodable string is the encoding of its value, except when it is a
  // nine-byte form whose payload wraps past 2^64.
  lemma Canonical(s: seq<byte>)
    requires VarDecode(s).Read?
    ensures var d := VarDecode(s);
      VarEncode(d.value) == s[..d.size]
      <==> !(d.size == 9 && Value(s[1..9]) + Bias(8) >= U64)
  {
    var k := Ones(s[0]);
    var t := s[..k + 1];
    HeadBound(t);
    BiasTable();
    if k == 8 {
      NineByteValue(s);
      if Value(s[1..9]) + Bias(8) >= U64 {
        WrappedIsNotCanonical(t, Value(s[1..9]));
      } else {
        OffsetIsCanonical(t, k);
      }
    } else {
      BiasGrows(k + 1, 8);
      OffsetIsCanonical(t, k);
    }
  }

  lemma NineByteValue(s: seq<byte>)
    requires |s| >= 9 && Ones(s[0]) == 8
    ensures Value(s[..9]) == Base(8) + Value(s[1..9])
  {
    OnesFromFloor(s[0], 0);
    SplitHead(s[..9]);
    assert s[..9][1..] == s[1..9];
    Bands(8);
  }

  lemma OffsetIsCanonical(t: seq<byte>, k: nat)
    requires k <= 8 && |t| == k + 1 && 0 <= Value(t) - Base(k) < Room(k)
    requires Value(t) - Base(k) + Bias(k) < U64
    ensures VarEncode((Value(t) - Base(k) + Bias(k)) % U64) == t
  {
    hide Bias, Room, Base, Value, BE, VarEncode, Band;
    var v := Value(t) - Base(k) + Bias(k);
    SmallMod(v, U64);
    NextBias(k);
    BandIs(v, k);
    OfBand(v, k);
    BEOfValue(t);
    assert Base(k) + (v - Bias(k)) == Value(t);
  }

  lemma NextBias(k: nat)
    requires k <= 8
    ensures Bias(k + 1) == Bias(k) + Room(k)
  {}

  lemma BandIs(v: nat, k: nat)
    requires k <= 8 && Bias(k) <= v && (k == 8 || v < Bias(k + 1))
    ensures Band(v) == k
  {
    hide Bias;
    BandFromIs(v, 0, k);
  }

  lemma OfBand(v: uint64, k: nat)
    requires k <= 8 && Band(v) == k && Bias(k) <= v
    ensures VarEncode(v) == BE(k + 1, Base(k) + (v - Bias(k)))
  {
    hide Bias, Base, Band;
  }

  lemma WrappedIsNotCanonical(t: seq<byte>, payload: nat)
    requires |t| == 9 && payload < U64 && payload + Bias(8) >= U64
    requires Value(t) == Base(8) + payload
    ensures VarEncode((Value(t) - Base(8) + Bias(8)) % U64) != t
  {
    BiasTable();
    var v := payload + Bias(8) - U64;
    DivModUnique(payload + Bias(8), U64, 1, v);
    EncodedValue(v);
    BandFloor(v);
  }

  // Signed numbers are folded onto unsigned ones: 0, -1, 1, -2, 2, ...
  function ZigZag(v: int64): uint64
  {
    if v >= 0 then 2 * v else -2 * v - 1
  }

  function UnZigZag(u: uint64): int64
  {
    if u % 2 == 0 then u / 2 else -(u / 2) - 1
  }

  lemma ZigZagBijective(v: int64, u: uint64)
    ensures UnZigZag(ZigZag(v)) == v && ZigZag(UnZigZag(u)) == u
  {}

  // The C expression ((v << 1) ^ (v >> 63)) on 64-bit words is ZigZag.
  function Word(v: int64): uint64 { if v >= 0 then v else v + U64 }

  function ZigZagWord(v: int64): nat
  {
    BitXor(Shl(Word(v), 1) % U64, if v < 0 then U64 - 1 else 0)
  }

  lemma ZigZagWordIsZigZag(v: int64)
    ensures ZigZagWord(v) == ZigZag(v)
  {
    hide BitXor, Pow2;
    var w := Shl(Word(v), 1) % U64;
    Pow2Of1();
    if v >= 0 {
      XorZero(w);
    } else {
      Pow2Of64();
      DivModUnique(2 * (v + U64), U64, 1, 2 * v + U64);
      assert w == 2 * v + U64;
      XorAllOnes(w, 64);
    }
  }

  lemma Pow2Of1()
    ensures Pow2(0) == 1 && Pow2(1) == 2
  {}

  lemma Pow2Of64()
    ensures Pow2(64) == U64 && Pow2(63) == U64 / 2 && Pow2(32) == 0x1_0000_0000
  {
    Pow2Adds(32, 32);
    Pow2Adds(16, 16);
    Pow2Of16();
    assert Pow2(64) == 2 * Pow2(64 - 1);
  }

  lemma Pow2Of16()
    ensures Pow2(16) == 0x1_0000
  {
    assert Pow2(4) == 16;
    Pow2Adds(4, 4);
    Pow2Adds(8, 8);
  }

  // The C expression of the decoder, as a 64-bit word read back as signed.
  function UnZigZagWord(u: uint64): nat
  {
    var half := BitAnd(Shr(u, 1), 0x7FFF_FFFF_FFFF_FFFF);
    if BitAnd(u, 1) == 0 then half else BitXor(half, 0xFFFF_FFFF_FFFF_FFFF)
  }

  lemma UnZigZagWordIsUnZigZag(u: uint64)
    ensures UnZigZagWord(u) == Word(UnZigZag(u))
  {
    hide BitXor, BitAnd, Pow2;
    Pow2Of64();
    Pow2Of1();
    AndOneBit(u, 0);
    AndLowMask(u / 2, 63);
    SmallMod(u / 2, Pow2(63));
    XorAllOnes(u / 2, 64);
  }
}
