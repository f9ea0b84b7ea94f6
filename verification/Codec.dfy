// The variable-length integers, type/index headers and length-prefixed data
// that dybuf writes through the cursor.

module Codec {
  import opened Bits
  import opened Bytes
  import opened VarInt
  import opened Typdex
  import opened CodecBits
  import opened DyBufs
  import opened Options

  method AppendVarU64(dyb: DyBuf, value: uint64)
    requires dyb.Valid() && dyb.HasRoom(|VarEncode(value)|)
    modifies dyb, dyb.data
    ensures dyb.Appended(VarEncode(value))
  {
    ShortBranches(value);
    if value <= 0x7F {
      dyb.AppendU8(value);
    } else if value <= 0x3FFF + 0x80 {
      dyb.AppendU16(BitOr(0x8000, value - 0x80));
    } else if value <= 0x1F_FFFF + 0x4080 {
      dyb.AppendU24(BitOr(0xC0_0000, value - 0x4080));
    } else if value <= 0x0FFF_FFFF + 0x204080 {
      dyb.AppendU32(BitOr(0xE000_0000, value - 0x204080));
    } else {
      AppendLongVarU64(dyb, value);
    }
  }

  // The branches of dyb_append_var_u64 for five bytes and more, then those for
  // eight and more.
  method AppendLongVarU64(dyb: DyBuf, value: uint64)
    requires value > 0x0FFF_FFFF + 0x204080 && dyb.Valid() && dyb.HasRoom(|VarEncode(value)|)
    modifies dyb, dyb.data
    ensures dyb.Appended(VarEncode(value))
  {
    LongBranches(value);
    if value <= 0x07_FFFF_FFFF + 0x10204080 {
      dyb.AppendU40(BitOr(0xF0_0000_0000, value - 0x10204080));
    } else if value <= 0x03FF_FFFF_FFFF + 0x0810204080 {
      dyb.AppendU48(BitOr(0xF800_0000_0000, value - 0x0810204080));
    } else if value <= 0x01_FFFF_FFFF_FFFF + 0x040810204080 {
      dyb.AppendU56(BitOr(0xFC_0000_0000_0000, value - 0x040810204080));
    } else {
      AppendLongestVarU64(dyb, value);
    }
  }

  method AppendLongestVarU64(dyb: DyBuf, value: uint64)
    requires value > 0x01_FFFF_FFFF_FFFF + 0x040810204080 && dyb.Valid() && dyb.HasRoom(|VarEncode(value)|)
    modifies dyb, dyb.data
    ensures dyb.Appended(VarEncode(value))
  {
    hide VarEncode, BE, BitOr;
    LongestBranches(value);
    if value <= 0xFF_FFFF_FFFF_FFFF + 0x02040810204080 {
      dyb.AppendU64(BitOr(0xFE00_0000_0000_0000, value - 0x02040810204080));
    } else {
      AppendLastVarU64(dyb, value - 0x0102040810204080);
    }
  }

  lemma NotEmpty(s: seq<byte>)
    ensures VarDecode(s).Read? ==> s != []
  {}

  // The lead byte 0xFF, then eight bytes.
  method AppendLastVarU64(dyb: DyBuf, payload: nat)
    requires payload < U64 && dyb.Valid() && dyb.HasRoom(|[0xFF] + BE(8, payload)|)
    modifies dyb, dyb.data
    ensures dyb.Appended([0xFF] + BE(8, payload))
  {
    assert BE(1, 0xFF) == [0xFF];
    hide BE, Drop;
    dyb.AppendU8(0xFF);
    dyb.AppendU64(payload);
    Regroup(old(dyb.Written()), [0xFF], BE(8, payload));
    DropTwice(old(dyb.Pending()), 1, 8);
  }

  method NextVarU64(dyb: DyBuf) returns (v: uint64)
    requires dyb.Valid() && VarDecode(dyb.Pending()).Read?
    modifies dyb`position
    ensures v == VarDecode(old(dyb.Pending())).value
    ensures dyb.Consumed(VarDecode(old(dyb.Pending())).size)
  {
    hide VarDecode;
    NotEmpty(dyb.Pending());
    ghost var s := dyb.Pending();
    var b := dyb.Get();
    assert s == [b] + dyb.Pending();
    v := NextBehindLead(dyb, b);
  }

  // The branches of dyb_next_var_u64, after the first byte.
  method NextBehindLead(dyb: DyBuf, b: byte) returns (v: uint64)
    requires dyb.Valid() && VarDecode([b] + dyb.Pending()).Read?
    modifies dyb`position
    ensures v == VarDecode([b] + old(dyb.Pending())).value
    ensures dyb.Consumed(VarDecode([b] + old(dyb.Pending())).size - 1)
  {
    ghost var rest := dyb.Pending();
    assert Value(rest[..0]) == 0;
    hide VarDecode, Value, Ones, BitAnd, Pow256;
    BytesAnnounced(b, rest);
    var short := IsClear(b, 7, 0x80);
    if short {
      v := JoinLead(b, 0x7F, 0, 0, rest);
    } else {
      var two := IsClear(b, 6, 0x40);
      if two {
        var w := dyb.NextU8();
        w := JoinLead(b, 0x3F, 1, w, rest);
        v := w + 0x80;
      } else {
        v := NextMiddleVarU64(dyb, b);
      }
    }
  }

  // Those behind a first byte of two ones or more,
  // of four or more, of six or more.
  method NextMiddleVarU64(dyb: DyBuf, b: byte) returns (v: uint64)
    requires b >= 0xC0 && dyb.Valid() && VarDecode([b] + dyb.Pending()).Read?
    modifies dyb`position
    ensures v == VarDecode([b] + old(dyb.Pending())).value
    ensures dyb.Consumed(VarDecode([b] + old(dyb.Pending())).size - 1)
  {
    hide Value, Ones, BitAnd, Pow256;
    ghost var rest := dyb.Pending();
    BytesAnnounced(b, rest);
    var three := IsClear(b, 5, 0x20);
    if three {
      var w := dyb.NextU16();
      w := JoinLead(b, 0x1F, 2, w, rest);
      v := w + 0x4080;
    } else {
      var four := IsClear(b, 4, 0x10);
      if four {
        var w := dyb.NextU24();
        w := JoinLead(b, 0x0F, 3, w, rest);
        v := w + 0x204080;
      } else {
        v := NextLongVarU64(dyb, b);
      }
    }
  }

  method NextLongVarU64(dyb: DyBuf, b: byte) returns (v: uint64)
    requires b >= 0xF0 && dyb.Valid() && VarDecode([b] + dyb.Pending()).Read?
    modifies dyb`position
    ensures v == VarDecode([b] + old(dyb.Pending())).value
    ensures dyb.Consumed(VarDecode([b] + old(dyb.Pending())).size - 1)
  {
    hide Value, Ones, BitAnd, Pow256;
    ghost var rest := dyb.Pending();
    BytesAnnounced(b, rest);
    var five := IsClear(b, 3, 0x08);
    if five {
      var w := dyb.NextU32();
      w := JoinLead(b, 0x07, 4, w, rest);
      v := w + 0x10204080;
    } else {
      var six := IsClear(b, 2, 0x04);
      if six {
        var w := dyb.NextU40();
        w := JoinLead(b, 0x03, 5, w, rest);
        v := w + 0x0810204080;
      } else {
        v := NextLongestVarU64(dyb, b);
      }
    }
  }

  method NextLongestVarU64(dyb: DyBuf, b: byte) returns (v: uint64)
    requires b >= 0xFC && dyb.Valid() && VarDecode([b] + dyb.Pending()).Read?
    modifies dyb`position
    ensures v == VarDecode([b] + old(dyb.Pending())).value
    ensures dyb.Consumed(VarDecode([b] + old(dyb.Pending())).size - 1)
  {
    hide Value, Ones, BitAnd, Pow256;
    ghost var rest := dyb.Pending();
    BytesAnnounced(b, rest);
    var seven := IsClear(b, 1, 0x02);
    if seven {
      var w := dyb.NextU48();
      w := JoinLead(b, 0x01, 6, w, rest);
      v := w + 0x040810204080;
    } else {
      v := NextLastVarU64(dyb, b);
    }
  }

  method NextLastVarU64(dyb: DyBuf, b: byte) returns (v: uint64)
    requires b >= 0xFE && dyb.Valid() && VarDecode([b] + dyb.Pending()).Read?
    modifies dyb`position
    ensures v == VarDecode([b] + old(dyb.Pending())).value
    ensures dyb.Consumed(VarDecode([b] + old(dyb.Pending())).size - 1)
  {
    hide VarDecode, Value;
    ghost var rest := dyb.Pending();
    BytesAnnounced(b, rest);
    var eight := IsClear(b, 0, 0x01);
    if eight {
      var w := dyb.NextU56();
      w := JoinLead(b, 0x00, 7, w, rest);
      v := w + 0x02040810204080;
    } else {
      DecodeLastBand(rest);
      var w := dyb.NextU64();
      v := (w + 0x0102040810204080) % U64;
    }
  }

  method AppendVarS64(dyb: DyBuf, value: int64)
    requires dyb.Valid() && dyb.HasRoom(|VarEncode(ZigZag(value))|)
    modifies dyb, dyb.data
    ensures dyb.Appended(VarEncode(ZigZag(value)))
  {
    var u := FoldSign(value);
    AppendVarU64(dyb, u);
  }

  method NextVarS64(dyb: DyBuf) returns (v: int64)
    requires dyb.Valid() && VarDecode(dyb.Pending()).Read?
    modifies dyb`position
    ensures v == UnZigZag(VarDecode(old(dyb.Pending())).value)
    ensures dyb.Consumed(VarDecode(old(dyb.Pending())).size)
  {
    var u := NextVarU64(dyb);
    v := UnfoldSign(u);
  }

  // `(value << 1) ^ (value >> 63)`
  method FoldSign(value: int64) returns (u: uint64)
    ensures u == ZigZag(value)
  {
    ZigZagWordIsZigZag(value);
    u := ZigZagWord(value);
  }

  method UnfoldSign(u: uint64) returns (v: int64)
    ensures v == UnZigZag(u)
  {
    UnZigZagWordIsUnZigZag(u);
    var w := UnZigZagWord(u);
    v := if w < U64 / 2 then w else w - U64;
  }

  // Refuses, and writes nothing, when no form fits.
  method AppendTypdex(dyb: DyBuf, typ: nat, index: nat) returns (ok: bool)
    requires dyb.Valid() && dyb.HasRoom(|HeaderEncode(Header(typ, index))|)
    modifies dyb, dyb.data
    ensures ok == (typ <= 0xFF && index <= 0xF_FFFF)
    ensures dyb.Appended(HeaderEncode(Header(typ, index)))
  {
    var h := Header(typ, index);
    if typ <= 0x0F && index <= 0x07 {
      var w := PackHeader(h, 0, 3, 1);
      dyb.AppendU8(w);
    } else if typ <= 0x3F && index <= 0x0FF {
      var w := PackHeader(h, 0x8000, 8, 2);
      dyb.AppendU16(w);
    } else if typ <= 0xFF && index <= 0x1FFF {
      var w := PackHeader(h, 0xC0_0000, 13, 3);
      dyb.AppendU24(w);
    } else if typ <= 0xFF && index <= 0x0F_FFFF {
      var w := PackHeader(h, 0xE000_0000, 20, 4);
      dyb.AppendU32(w);
    } else {
      return false;
    }
    return true;
  }

  // `mark | (type << shift) | index`
  method PackHeader(h: Header, mark: nat, shift: nat, ghost n: nat) returns (w: nat)
    requires 1 <= n <= 4 && Fits(h, n) && mark == Mark(n) && shift == [3, 8, 13, 20][n - 1]
    ensures w == Form(h, n)
  {
    w := BitOr(BitOr(mark, Shl(h.typ, shift)), h.index);
    OrHeader(h, n, shift);
  }

  // `type = (v >> shift) & typeMask`, `index = v & indexMask`
  method SplitHeader(v: nat, shift: nat, typeMask: nat, indexMask: nat, ghost n: nat) returns (h: Header)
    requires 1 <= n <= 4 && shift == [3, 8, 13, 20][n - 1]
    requires typeMask == TypeLimit(n) - 1 && indexMask == IndexLimit(n) - 1
    ensures h == Header(v / IndexLimit(n) % TypeLimit(n), v % IndexLimit(n))
  {
    HeaderMasks(v, n, shift);
    h := Header(BitAnd(Shr(v, shift), typeMask), BitAnd(v, indexMask));
  }

  method NextTypdex(dyb: DyBuf) returns (h: Header)
    requires dyb.Valid() && HeaderDecode(dyb.Pending()).Read?
    modifies dyb`position
    ensures h == HeaderDecode(old(dyb.Pending())).value
    ensures dyb.Consumed(HeaderDecode(old(dyb.Pending())).size)
  {
    ghost var s := dyb.Pending();
    var b := dyb.data[dyb.position];
    assert b == s[0];
    var n := FormOfLead(b);
    if n == 1 {
      var v := dyb.NextU8();
      h := SplitHeader(v, 3, 0x0F, 0x07, 1);
    } else if n == 2 {
      var v := dyb.NextU16();
      h := SplitHeader(v, 8, 0x3F, 0x00FF, 2);
    } else if n == 3 {
      var v := dyb.NextU24();
      h := SplitHeader(v, 13, 0xFF, 0x1FFF, 3);
    } else if n == 4 {
      var v := dyb.NextU32();
      h := SplitHeader(v, 20, 0xFF, 0x0F_FFFF, 4);
    } else {
      h := Header(b, 0);
    }
  }

  // The nested tests of the first byte's leading bits.
  method FormOfLead(b: byte) returns (n: nat)
    ensures n == FormOf(b)
  {
    var clear := IsClear(b, 7, 0x80);
    if clear { return 1; }
    clear := IsClear(b, 6, 0x40);
    if clear { return 2; }
    clear := IsClear(b, 5, 0x20);
    if clear { return 3; }
    clear := IsClear(b, 4, 0x10);
    if clear { return 4; }
    return 0;
  }

  // Looks at the next header without moving the cursor.
  method PeekTypdex(dyb: DyBuf) returns (h: Header)
    requires dyb.Valid() && HeaderDecode(dyb.Pending()).Read?
    ensures h == HeaderDecode(dyb.Pending()).value
  {
    ghost var s := dyb.Pending();
    var b := dyb.data[dyb.position];
    assert b == s[0];
    var n := FormOfLead(b);
    if n == 1 {
      var v := dyb.PeekU8();
      h := SplitHeader(v, 3, 0x0F, 0x07, 1);
    } else if n == 2 {
      var v := dyb.PeekU16();
      h := SplitHeader(v, 8, 0x3F, 0x00FF, 2);
    } else if n == 3 {
      var v := dyb.PeekU24();
      h := SplitHeader(v, 13, 0xFF, 0x1FFF, 3);
    } else if n == 4 {
      var v := dyb.PeekU32();
      h := SplitHeader(v, 20, 0xFF, 0x0F_FFFF, 4);
    } else {
      h := Header(b, 0);
    }
  }

  method AppendDataWithoutLen(dyb: DyBuf, data: seq<byte>)
    requires dyb.Valid() && dyb.HasRoom(|data|)
    modifies dyb, dyb.data
    ensures dyb.Appended(data)
  {
    dyb.AppendBlock(data);
  }

  // Null for a length of 0, and null without moving when the limit is too near.
  method NextDataWithoutLen(dyb: DyBuf, len: nat) returns (data: Option<seq<byte>>)
    requires dyb.Valid()
    modifies dyb`position
    ensures data == if len == 0 || len > |old(dyb.Pending())| then None else Some(old(dyb.Pending())[..len])
    ensures dyb.Consumed(if data.None? then 0 else len)
  {
    if len == 0 || dyb.position + len > dyb.limit { return None; }
    data := Some(dyb.data[dyb.position..dyb.position + len]);
    assert data.value == dyb.Pending()[..len];
    dyb.position := dyb.position + len;
  }

  // A block of bytes behind its own length.
  function BlockEncode(data: block): seq<byte>
  {
    VarEncode(|data|) + data
  }

  method AppendDataWithVarLen(dyb: DyBuf, data: block)
    requires dyb.Valid() && dyb.HasRoom(|BlockEncode(data)|)
    modifies dyb, dyb.data
    ensures dyb.Appended(BlockEncode(data))
  {
    hide Drop, VarEncode;
    AppendVarU64(dyb, |data|);
    AppendDataWithoutLen(dyb, data);
    Regroup(old(dyb.Written()), VarEncode(|data|), data);
    DropTwice(old(dyb.Pending()), |VarEncode(|data|)|, |data|);
  }

  // What reading a block gives: the data, its announced size, and the bytes taken.
  datatype BlockRead = BlockRead(data: Option<seq<byte>>, size: nat, taken: nat)

  // The length is cast to 32 bits. The data is null for a length of 0 or one
  // that runs past the end, and then only the length is consumed.
  function BlockDecode(s: seq<byte>): BlockRead
    requires VarDecode(s).Read?
  {
    var d := VarDecode(s);
    var n := d.value % 0x1_0000_0000;
    if n == 0 || d.size + n > |s| then BlockRead(None, n, d.size)
    else BlockRead(Some(s[d.size..d.size + n]), n, d.size + n)
  }

  method NextDataWithVarLen(dyb: DyBuf) returns (got: Option<seq<byte>>, size: nat)
    requires dyb.Valid() && VarDecode(dyb.Pending()).Read?
    modifies dyb`position
    ensures got == BlockDecode(old(dyb.Pending())).data && size == BlockDecode(old(dyb.Pending())).size
    ensures
      var d := VarDecode(old(dyb.Pending()));
      var behind := old(dyb.Pending())[d.size..];
      size == d.value % 0x1_0000_0000
      && if size == 0 || size > |behind| then got == None && dyb.Consumed(d.size)
         else got == Some(behind[..size]) && dyb.Consumed(d.size + size)
    ensures dyb.Consumed(BlockDecode(old(dyb.Pending())).taken)
  {
    hide VarDecode;
    ghost var s := dyb.Pending();
    var len := NextVarU64(dyb);
    assert dyb.Pending() == s[VarDecode(s).size..];
    size := len % 0x1_0000_0000;
    got := NextDataWithoutLen(dyb, size);
    TailSlice(s, VarDecode(s).size, size);
  }

  lemma TailSlice(s: seq<byte>, i: nat, n: nat)
    requires i <= |s|
    ensures i + n <= |s| ==> s[i..][..n] == s[i..i + n]
  {}

  lemma BlockRoundTrip(data: block, rest: seq<byte>)
    ensures VarDecode(BlockEncode(data) + rest).Read?
    ensures BlockDecode(BlockEncode(data) + rest)
         == BlockRead(if data == [] then None else Some(data), |data|, |BlockEncode(data)|)
  {
    hide VarDecode, VarEncode;
    assert BlockEncode(data) + rest == VarEncode(|data|) + (data + rest);
    RoundTrip(|data|, data + rest);
    var n := |VarEncode(|data|)|;
    assert (VarEncode(|data|) + (data + rest))[n..n + |data|] == data;
  }

  function StringEncode(s: text): seq<byte>
  {
    BlockEncode(s + [0])
  }

  method AppendStringWithVarLen(dyb: DyBuf, s: text)
    requires dyb.Valid() && dyb.HasRoom(|StringEncode(s)|)
    modifies dyb, dyb.data
    ensures dyb.Appended(StringEncode(s))
  {
    AppendDataWithVarLen(dyb, s + [0]);
  }

  // Returns the bytes with their terminator, and the length without it, which
  // wraps around for an announced length of 0.
  method NextStringWithVarLen(dyb: DyBuf) returns (got: Option<seq<byte>>, size: nat)
    requires dyb.Valid() && VarDecode(dyb.Pending()).Read?
    modifies dyb`position
    ensures got == BlockDecode(old(dyb.Pending())).data
    ensures size == (BlockDecode(old(dyb.Pending())).size - 1) % 0x1_0000_0000
    ensures dyb.Consumed(BlockDecode(old(dyb.Pending())).taken)
  {
    var len;
    got, len := NextDataWithVarLen(dyb);
    size := (len + 0xFFFF_FFFF) % 0x1_0000_0000;
  }

  // Reading back what is known to have been written.
  method NextHeader(dyb: DyBuf, ghost h: Header, ghost tail: seq<byte>)
    requires h.typ <= 0xFF && h.index <= 0xF_FFFF
    requires dyb.Valid() && dyb.Pending() == HeaderEncode(h) + tail
    modifies dyb`position
    ensures dyb.Consumed(|HeaderEncode(h)|) && dyb.Pending() == tail
  {
    HeaderRoundTrip(h, tail);
    var _ := NextTypdex(dyb);
  }

  method NextNumber(dyb: DyBuf, ghost u: uint64, ghost rest: seq<byte>) returns (v: uint64)
    requires dyb.Valid() && dyb.Pending() == VarEncode(u) + rest
    modifies dyb`position
    ensures dyb.Consumed(|VarEncode(u)|) && dyb.Pending() == rest && v == u
  {
    RoundTrip(u, rest);
    v := NextVarU64(dyb);
  }

  method NextSigned(dyb: DyBuf, ghost n: int64, ghost rest: seq<byte>) returns (v: int64)
    requires dyb.Valid() && dyb.Pending() == VarEncode(ZigZag(n)) + rest
    modifies dyb`position
    ensures dyb.Consumed(|VarEncode(ZigZag(n))|) && dyb.Pending() == rest && v == n
  {
    RoundTrip(ZigZag(n), rest);
    v := NextVarS64(dyb);
  }

  method NextBlock(dyb: DyBuf, ghost data: block, ghost rest: seq<byte>) returns (got: block)
    requires dyb.Valid() && dyb.Pending() == BlockEncode(data) + rest
    modifies dyb`position
    ensures dyb.Consumed(|BlockEncode(data)|) && dyb.Pending() == rest && got == data
  {
    hide BlockDecode, BlockEncode, VarDecode, VarEncode;
    BlockRoundTrip(data, rest);
    var d, _ := NextDataWithVarLen(dyb);
    got := if d.None? then [] else d.value;
  }

  method NextText(dyb: DyBuf, ghost t: text, ghost rest: seq<byte>) returns (got: text)
    requires dyb.Valid() && dyb.Pending() == StringEncode(t) + rest
    modifies dyb`position
    ensures dyb.Consumed(|StringEncode(t)|) && dyb.Pending() == rest && got == t
  {
    hide BlockDecode, BlockEncode, VarDecode, VarEncode;
    BlockRoundTrip(t + [0], rest);
    var d, size := NextStringWithVarLen(dyb);
    assert (t + [0])[..|t|] == t;
    got := d.value[..size];
  }
}
