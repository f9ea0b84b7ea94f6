// What the shifts and masks of the codec compute: octets, assembled words,
// tests of leading bits.

module CodecBits {
  import opened Bits
  import opened Bytes
  import opened VarInt
  import opened Typdex

  // `(v >> 8k) & 0xff` is the k-th byte from the right.
  function Octet(v: nat, k: nat): (b: byte)
  {
    ByteMask(Shr(v, 8 * k));
    BitAnd(Shr(v, 8 * k), 0xFF)
  }

  lemma ByteMask(v: nat)
    ensures BitAnd(v, 0xFF) == v % 256
  {
    assert Pow2(8) == 256;
    AndLowMask(v, 8);
  }

  lemma {:induction false} OctetsOfBE(n: nat, v: nat, i: nat)
    requires i < n
    ensures BE(n, v)[i] == Octet(v, n - 1 - i)
  {
    ByteMask(Shr(v, 8 * (n - 1 - i)));
    if i < n - 1 {
      OctetsOfBE(n - 1, v / 256, i);
      ByteMask(Shr(v / 256, 8 * (n - 2 - i)));
      ShiftByte(v, n - 2 - i);
      assert BE(n, v)[i] == BE(n - 1, v / 256)[i];
    }
  }

  lemma ShiftByte(v: nat, j: nat)
    ensures Shr(v, 8 * (j + 1)) == Shr(v / 256, 8 * j)
  {
    assert Pow2(8) == 256;
    Pow2Adds(8, 8 * j);
    assert 8 + 8 * j == 8 * (j + 1);
    DivNest(v, Pow2(8 * j));
  }

  // `v | (b << k)` when v is a multiple of 2^(k+8).
  lemma OrOctet(p: seq<byte>, b: byte, k: nat)
    ensures BitOr(Value(p) * Pow2(k + 8), Shl(BitAnd(b, 0xFF), k)) == Value(p + [b]) * Pow2(k)
  {
    hide BitOr, BitAnd, Pow2;
    ByteMask(b);
    Pow2Of8();
    Pow2Adds(k, 8);
    ShiftedBelow(b, Pow2(k));
    OrOfDisjoint(Value(p), Shl(b, k), k + 8);
    assert (p + [b])[..|p|] == p;
    RegroupProduct(Value(p), b, Pow2(k));
  }

  lemma Pow2Of8()
    ensures Pow2(8) == 256
  {}

  lemma ShiftedBelow(b: byte, q: nat)
    requires q > 0
    ensures b * q < q * 256
  {
    MulLess(b + 1, 256, q);
  }

  lemma RegroupProduct(h: nat, b: nat, q: nat)
    ensures h * (q * 256) + b * q == (h * 256 + b) * q
  {}

  // The mark of a varint band and the offset within the band do not overlap.
  lemma OrBase(k: nat, off: nat)
    requires k <= 7 && off < Room(k)
    ensures BitOr(Base(k), off) == Base(k) + off
  {
    RoomIsPower(k);
    OrOfDisjoint(Lead(k + 1) / Pow2(7 - k) - 1, off, 7 * k + 7);
  }

  lemma RoomIsPower(k: nat)
    requires k <= 7
    ensures Room(k) == Pow2(7 * k + 7)
    ensures Lead(k + 1) / Pow2(7 - k) >= 1
    ensures (Lead(k + 1) / Pow2(7 - k) - 1) * Pow2(7 * k + 7) == Base(k)
  {
    PowerTable();
  }

  lemma PowerTable()
    ensures Pow2(7) == 0x80 && Pow2(14) == 0x4000 && Pow2(21) == 0x20_0000 && Pow2(28) == 0x1000_0000
    ensures Pow2(35) == 0x8_0000_0000 && Pow2(42) == 0x400_0000_0000 && Pow2(49) == 0x2_0000_0000_0000
    ensures Pow2(56) == 0x100_0000_0000_0000
    ensures Pow2(0) == 1 && Pow2(1) == 2 && Pow2(2) == 4 && Pow2(3) == 8 && Pow2(4) == 16 && Pow2(5) == 32
    ensures Pow2(6) == 64
  {
    assert Pow2(7) == 0x80;
    Pow2Adds(7, 7);
    Pow2Adds(14, 7);
    Pow2Adds(14, 14);
    Pow2Adds(28, 7);
    Pow2Adds(35, 7);
    Pow2Adds(42, 7);
    Pow2Adds(49, 7);
  }

  // Branch k of the encoder.
  lemma EncodeInBand(v: uint64, k: nat)
    requires k <= 7 && Bias(k) <= v < Bias(k + 1)
    ensures VarEncode(v) == BE(k + 1, BitOr(Base(k), v - Bias(k)))
    ensures BitOr(Base(k), v - Bias(k)) == Base(k) + v - Bias(k)
  {
    BandFromIs(v, 0, k) by { BiasGrows(0, k); }
    assert Bias(k + 1) == Bias(k) + Room(k);
    OrBase(k, v - Bias(k));
  }

  lemma EncodeInLastBand(v: uint64)
    requires Bias(8) <= v
    ensures VarEncode(v) == [0xFF] + BE(8, v - Bias(8))
  {
    BandFromIs(v, 0, 8);
    PrependByte(8, 0xFF, v - Bias(8));
    Bands(8);
    BiasTable();
  }

  lemma {:induction false} PrependByte(n: nat, b: byte, v: nat)
    requires v < Pow256(n)
    ensures BE(n + 1, b * Pow256(n) + v) == [b] + BE(n, v)
  {
    var x := b * Pow256(n) + v;
    if n == 0 {
      assert BE(1, x) == BE(0, x / 256) + [x % 256];
    } else {
      Carry(b, Pow256(n - 1), v);
      PrependByte(n - 1, b, v / 256);
    }
  }

  lemma Carry(b: nat, p: nat, v: nat)
    requires v < 256 * p
    ensures (b * (256 * p) + v) / 256 == b * p + v / 256
    ensures (b * (256 * p) + v) % 256 == v % 256
    ensures v / 256 < p
  {
    assert b * (256 * p) == (b * p) * 256;
  }

  // Branch k of the decoder: the low bits of the first byte above the k
  // following bytes.
  lemma DecodeInBand(b: byte, rest: seq<byte>, k: nat, mask: nat)
    requires k <= 7 && mask == [0x7F, 0x3F, 0x1F, 0x0F, 0x07, 0x03, 0x01, 0x00][k]
    requires |rest| >= k && Lead(k) <= b < Lead(k + 1)
    ensures VarDecode([b] + rest) == Read(BitOr(Shl(BitAnd(b, mask), 8 * k), Value(rest[..k])) + Bias(k), k + 1)
  {
    MaskedLead(b, k, mask);
    ValueBound(rest[..k]);
    OrAbove(b - Lead(k), Value(rest[..k]), k);
    DecodeOffset([b] + rest, k);
    assert ([b] + rest)[1..k + 1] == rest[..k];
  }

  lemma MaskedLead(b: byte, k: nat, mask: nat)
    requires k <= 7 && mask == [0x7F, 0x3F, 0x1F, 0x0F, 0x07, 0x03, 0x01, 0x00][k]
    requires Lead(k) <= b < Lead(k + 1)
    ensures BitAnd(b, mask) == b - Lead(k)
  {
    PowerTable();
    AndLowMask(b, 7 - k);
    LowBitsOfLead(b, k);
  }

  lemma OrAbove(d: nat, x: nat, k: nat)
    requires x < Pow256(k)
    ensures BitOr(Shl(d, 8 * k), x) == d * Pow256(k) + x
  {
    Pow256IsPow2(k);
    OrOfDisjoint(d, x, 8 * k);
  }

  lemma DecodeOffset(s: seq<byte>, k: nat)
    requires k <= 7 && |s| >= k + 1 && Lead(k) <= s[0] < Lead(k + 1)
    ensures VarDecode(s) == Read((s[0] - Lead(k)) * Pow256(k) + Value(s[1..k + 1]) + Bias(k), k + 1)
  {
    OnesFromIs(s[0], 0, k);
    var t := s[..k + 1];
    assert t[1..] == s[1..k + 1];
    SplitHead(t);
    HeadBound(t);
    BaseOffset(s[0], k);
    BiasTable();
    BiasGrows(k + 1, 8);
    assert Bias(k + 1) == Bias(k) + Room(k);
    SmallMod(Value(t) - Base(k) + Bias(k), U64);
  }

  lemma BaseOffset(b: byte, k: nat)
    requires k <= 7 && Lead(k) <= b
    ensures (b - Lead(k)) * Pow256(k) == b * Pow256(k) - Base(k)
  {
    Bands(k);
    var p := Pow256(k);
    assert (b - Lead(k)) * p == b * p - Lead(k) * p;
  }

  lemma LowBitsOfLead(b: byte, k: nat)
    requires k <= 7 && Lead(k) <= b < Lead(k + 1)
    ensures b % Pow2(7 - k) == b - Lead(k)
  {
    PowerTable();
  }

  lemma {:induction false} Pow256IsPow2(k: nat)
    ensures Pow2(8 * k) == Pow256(k)
  {
    if k > 0 {
      Pow256IsPow2(k - 1);
      assert Pow2(8) == 256;
      Pow2Adds(8, 8 * (k - 1));
    }
  }

  lemma DecodeLastBand(rest: seq<byte>)
    requires |rest| >= 8
    ensures VarDecode([0xFF] + rest) == Read((Value(rest[..8]) + 0x0102040810204080) % U64, 9)
  {
    BiasTable();
    OnesFromIs(0xFF, 0, 8);
    NineByteValue([0xFF] + rest);
    assert ([0xFF] + rest)[1..9] == rest[..8];
  }

  // The four header forms: `mark | (type << s) | index` adds its parts, and
  // the decoder's shifts and masks are the divisions of HeaderDecode.
  lemma OrHeader(h: Header, n: nat, shift: nat)
    requires 1 <= n <= 4 && Fits(h, n) && shift == [3, 8, 13, 20][n - 1]
    ensures BitOr(BitOr(Mark(n), Shl(h.typ, shift)), h.index) == Form(h, n)
  {
    HeaderPowers(n);
    OrThree([0, 2, 6, 14][n - 1], h.typ, h.index, shift, [4, 6, 8, 8][n - 1]);
  }

  lemma OrThree(q: nat, t: nat, i: nat, s: nat, w: nat)
    requires t < Pow2(w) && i < Pow2(s)
    ensures BitOr(BitOr(q * Pow2(s + w), Shl(t, s)), i) == q * Pow2(s + w) + t * Pow2(s) + i
  {
    hide BitOr, Pow2;
    Pow2Adds(s, w);
    ShiftedBelowLimit(t, Pow2(w), Pow2(s));
    OrOfDisjoint(q, Shl(t, s), s + w);
    Distribute(q, Pow2(w), t, Pow2(s));
    OrOfDisjoint(q * Pow2(w) + t, i, s);
  }

  lemma Distribute(q: nat, w: nat, t: nat, s: nat)
    ensures q * (s * w) + t * s == (q * w + t) * s
  {}

  lemma HeaderPowers(n: nat)
    requires 1 <= n <= 4
    ensures Pow2([3, 8, 13, 20][n - 1]) == IndexLimit(n)
    ensures Pow2([4, 6, 8, 8][n - 1]) == TypeLimit(n)
    ensures Mark(n) == [0, 2, 6, 14][n - 1] * Pow2([3, 8, 13, 20][n - 1] + [4, 6, 8, 8][n - 1])
  {
    PowerTable();
    assert Pow2(8) == 0x100;
    Pow2Adds(8, 5);
    Pow2Adds(13, 7);
  }

  lemma ShiftedBelowLimit(b: nat, t: nat, q: nat)
    requires b < t && q > 0
    ensures b * q < q * t
  {
    MulLess(b + 1, t, q);
  }

  // The decoder's shifts and masks are the divisions of HeaderDecode.
  lemma HeaderMasks(v: nat, n: nat, shift: nat)
    requires 1 <= n <= 4 && shift == [3, 8, 13, 20][n - 1]
    ensures BitAnd(Shr(v, shift), TypeLimit(n) - 1) == v / IndexLimit(n) % TypeLimit(n)
    ensures BitAnd(v, IndexLimit(n) - 1) == v % IndexLimit(n)
  {
    HeaderPowers(n);
    AndLowMask(Shr(v, shift), [4, 6, 8, 8][n - 1]);
    AndLowMask(v, shift);
  }

  // The encoder's branches, with the constants of the source.
  lemma ShortBranches(v: uint64)
    ensures v <= 0x7F ==> VarEncode(v) == BE(1, v)
    ensures 0x7F < v <= 0x3FFF + 0x80 ==> VarEncode(v) == BE(2, BitOr(0x8000, v - 0x80))
    ensures 0x3FFF + 0x80 < v <= 0x1F_FFFF + 0x4080 ==> VarEncode(v) == BE(3, BitOr(0xC0_0000, v - 0x4080))
    ensures 0x1F_FFFF + 0x4080 < v <= 0x0FFF_FFFF + 0x204080 ==>
      VarEncode(v) == BE(4, BitOr(0xE000_0000, v - 0x204080))
  {
    BiasTable();
    if v <= 0x7F { EncodeInBand(v, 0); }
    else if v <= 0x3FFF + 0x80 { EncodeInBand(v, 1); }
    else if v <= 0x1F_FFFF + 0x4080 { EncodeInBand(v, 2); }
    else if v <= 0x0FFF_FFFF + 0x204080 { EncodeInBand(v, 3); }
  }

  lemma LongBranches(v: uint64)
    ensures 0x0FFF_FFFF + 0x204080 < v <= 0x07_FFFF_FFFF + 0x10204080 ==>
      VarEncode(v) == BE(5, BitOr(0xF0_0000_0000, v - 0x10204080))
    ensures 0x07_FFFF_FFFF + 0x10204080 < v <= 0x03FF_FFFF_FFFF + 0x0810204080 ==>
      VarEncode(v) == BE(6, BitOr(0xF800_0000_0000, v - 0x0810204080))
    ensures 0x03FF_FFFF_FFFF + 0x0810204080 < v <= 0x01_FFFF_FFFF_FFFF + 0x040810204080 ==>
      VarEncode(v) == BE(7, BitOr(0xFC_0000_0000_0000, v - 0x040810204080))
  {
    BiasTable();
    if 0x0FFF_FFFF + 0x204080 < v <= 0x07_FFFF_FFFF + 0x10204080 { EncodeInBand(v, 4); }
    else if 0x07_FFFF_FFFF + 0x10204080 < v <= 0x03FF_FFFF_FFFF + 0x0810204080 { EncodeInBand(v, 5); }
    else if 0x03FF_FFFF_FFFF + 0x0810204080 < v <= 0x01_FFFF_FFFF_FFFF + 0x040810204080 { EncodeInBand(v, 6); }
  }

  lemma LongestBranches(v: uint64)
    ensures 0x01_FFFF_FFFF_FFFF + 0x040810204080 < v <= 0xFF_FFFF_FFFF_FFFF + 0x02040810204080 ==>
      VarEncode(v) == BE(8, BitOr(0xFE00_0000_0000_0000, v - 0x02040810204080))
    ensures 0xFF_FFFF_FFFF_FFFF + 0x02040810204080 < v ==>
      VarEncode(v) == [0xFF] + BE(8, v - 0x0102040810204080)
  {
    BiasTable();
    if v > 0xFF_FFFF_FFFF_FFFF + 0x02040810204080 { EncodeInLastBand(v); }
    else if v > 0x01_FFFF_FFFF_FFFF + 0x040810204080 { EncodeInBand(v, 7); }
  }

  // How many bytes the first byte of a decodable number announces.
  lemma BytesAnnounced(b: byte, rest: seq<byte>)
    requires VarDecode([b] + rest).Read?
    ensures b >= 0x80 ==> |rest| >= 1
    ensures b >= 0xC0 ==> |rest| >= 2
    ensures b >= 0xE0 ==> |rest| >= 3
    ensures b >= 0xF0 ==> |rest| >= 4
    ensures b >= 0xF8 ==> |rest| >= 5
    ensures b >= 0xFC ==> |rest| >= 6
    ensures b >= 0xFE ==> |rest| >= 7
    ensures b >= 0xFF ==> |rest| >= 8
  {
    OnesFromFloor(b, 0);
  }

  // `(b & mask) == 0` for a mask of one bit.
  method IsClear(b: byte, k: nat, mask: nat) returns (clear: bool)
    requires k < 8 && mask == Pow2(k)
    ensures clear == (b / mask % 2 == 0)
  {
    AndOneBit(b, k);
    clear := BitAnd(b, mask) == 0;
  }

  // `((b & mask) << 8k) | w`: the low bits of the first byte above the k bytes
  // that follow it in rest.
  method JoinLead(b: byte, mask: nat, k: nat, w: nat, ghost rest: seq<byte>) returns (v: nat)
    requires k <= 7 && mask == [0x7F, 0x3F, 0x1F, 0x0F, 0x07, 0x03, 0x01, 0x00][k]
    requires |rest| >= k && w == Value(rest[..k]) && Lead(k) <= b < Lead(k + 1)
    ensures VarDecode([b] + rest) ==
      Read(v + [0, 0x80, 0x4080, 0x204080, 0x10204080, 0x0810204080, 0x040810204080, 0x02040810204080][k], k + 1)
  {
    v := BitOr(Shl(BitAnd(b, mask), 8 * k), w);
    BiasTable();
    DecodeInBand(b, rest, k, mask);
  }
}
