// Typed items: a type/index header followed by a payload, read back by the
// peek-then-read loop.

module DyPkt {
  import opened Bits
  import opened Bytes
  import opened VarInt
  import opened Typdex
  import opened DyBufs
  import opened Codec

  type index = x: int | 0 <= x <= 0xF_FFFF

  const TYPE_BOOL := 1
  const TYPE_INT := 2
  const TYPE_UINT := 3
  const TYPE_STRING := 0xA
  const TYPE_BYTES := 0xB
  const TYPE_F := 0xF

  const F_EOF := 0
  const F_VERSION := 1
  const F_PROTOCOL := 7
  const F_PROTO_VERSION := 8

  datatype Item =
    | Bool(i: index, b: bool)
    | Int(i: index, v: int64)
    | Uint(i: index, u: uint64)
    | String(i: index, s: text)
    | Bytes(i: index, data: block)
    | Version(number: uint64)
    | Protocol(name: text)
    | ProtoVersion(number: uint64)
    | Eof
  {
    function Head(): Header
    {
      match this
      case Bool(i, _) => Header(TYPE_BOOL, i)
      case Int(i, _) => Header(TYPE_INT, i)
      case Uint(i, _) => Header(TYPE_UINT, i)
      case String(i, _) => Header(TYPE_STRING, i)
      case Bytes(i, _) => Header(TYPE_BYTES, i)
      case Version(_) => Header(TYPE_F, F_VERSION)
      case Protocol(_) => Header(TYPE_F, F_PROTOCOL)
      case ProtoVersion(_) => Header(TYPE_F, F_PROTO_VERSION)
      case Eof => Header(TYPE_F, F_EOF)
    }

    function Payload(): seq<byte>
    {
      match this
      case Bool(_, b) => [if b then 1 else 0]
      case Int(_, v) => VarEncode(ZigZag(v))
      case Uint(_, u) => VarEncode(u)
      case String(_, s) => StringEncode(s)
      case Bytes(_, data) => BlockEncode(data)
      case Version(n) => VarEncode(n)
      case Protocol(s) => StringEncode(s)
      case ProtoVersion(n) => VarEncode(n)
      case Eof => []
    }

    function Encode(): seq<byte> { HeaderEncode(Head()) + Payload() }
  }

  function EncodeAll(items: seq<Item>): seq<byte>
  {
    if items == [] then [] else items[0].Encode() + EncodeAll(items[1..])
  }

  method AppendItem(dyp: DyBuf, item: Item)
    requires dyp.Valid() && dyp.HasRoom(|item.Encode()|)
    modifies dyp, dyp.data
    ensures dyp.Appended(item.Encode())
  {
    hide Drop, HeaderEncode, VarEncode, BlockEncode, StringEncode;
    var h := item.Head();
    ghost var a, b := HeaderEncode(h), item.Payload();
    var _ := AppendTypdex(dyp, h.typ, h.index);
    AppendPayload(dyp, item);
    Regroup(old(dyp.Written()), a, b);
    DropTwice(old(dyp.Pending()), |a|, |b|);
  }

  method AppendPayload(dyp: DyBuf, item: Item)
    requires dyp.Valid() && dyp.HasRoom(|item.Payload()|)
    modifies dyp, dyp.data
    ensures dyp.Appended(item.Payload())
  {
    match item
    case Bool(_, b) => dyp.AppendBool(b);
    case Int(_, v) => AppendVarS64(dyp, v);
    case Uint(_, u) => AppendVarU64(dyp, u);
    case String(_, s) => AppendStringWithVarLen(dyp, s);
    case Bytes(_, data) => AppendDataWithVarLen(dyp, data);
    case Version(n) => AppendVarU64(dyp, n);
    case Protocol(s) => AppendStringWithVarLen(dyp, s);
    case ProtoVersion(n) => AppendVarU64(dyp, n);
    case Eof =>
  }

  // The branches of the loop that read a value of the peeked type.
  method NextValue(dyp: DyBuf, h: Header, ghost item: Item, ghost rest: seq<byte>) returns (got: Item)
    requires h == item.Head() && h.typ != TYPE_F
    requires dyp.Valid() && dyp.Pending() == item.Encode() + rest
    modifies dyp`position
    ensures dyp.Consumed(|item.Encode()|) && dyp.Pending() == rest && got == item
  {
    hide HeaderEncode, Item.Payload;
    Regroup(HeaderEncode(h), item.Payload(), rest);
    NextHeader(dyp, h, item.Payload() + rest);
    if h.typ == TYPE_STRING || h.typ == TYPE_BYTES {
      got := NextStringOrBytes(dyp, h, item, rest);
    } else {
      got := NextBoolOrNumber(dyp, h, item, rest);
    }
  }

  method NextBoolOrNumber(dyp: DyBuf, h: Header, ghost item: Item, ghost rest: seq<byte>) returns (got: Item)
    requires h == item.Head() && h.typ in {TYPE_BOOL, TYPE_INT, TYPE_UINT}
    requires dyp.Valid() && dyp.Pending() == item.Payload() + rest
    modifies dyp`position
    ensures dyp.Consumed(|item.Payload()|) && dyp.Pending() == rest && got == item
  {
    hide VarEncode, ZigZag;
    if h.typ == TYPE_BOOL {
      var b := NextFlag(dyp, item.b, rest);
      got := Bool(h.index, b);
    } else if h.typ == TYPE_INT {
      var v := NextSigned(dyp, item.v, rest);
      got := Int(h.index, v);
    } else {
      var u := NextNumber(dyp, item.u, rest);
      got := Uint(h.index, u);
    }
  }

  method NextFlag(dyp: DyBuf, ghost b: bool, ghost rest: seq<byte>) returns (got: bool)
    requires dyp.Valid() && dyp.Pending() == [if b then 1 else 0] + rest
    modifies dyp`position
    ensures dyp.Consumed(1) && dyp.Pending() == rest && got == b
  {
    got := dyp.NextBool();
  }

  method NextStringOrBytes(dyp: DyBuf, h: Header, ghost item: Item, ghost rest: seq<byte>) returns (got: Item)
    requires h == item.Head() && h.typ in {TYPE_STRING, TYPE_BYTES}
    requires dyp.Valid() && dyp.Pending() == item.Payload() + rest
    modifies dyp`position
    ensures dyp.Consumed(|item.Payload()|) && dyp.Pending() == rest && got == item
  {
    if h.typ == TYPE_STRING {
      var s := NextText(dyp, item.s, rest);
      got := String(h.index, s);
    } else {
      var data := NextBlock(dyp, item.data, rest);
      got := Bytes(h.index, data);
    }
  }

  // The branches for function items.
  method NextFunction(dyp: DyBuf, h: Header, ghost item: Item, ghost rest: seq<byte>) returns (got: Item)
    requires h == item.Head() && h.typ == TYPE_F
    requires dyp.Valid() && dyp.Pending() == item.Encode() + rest
    modifies dyp`position
    ensures dyp.Consumed(|item.Encode()|) && dyp.Pending() == rest && got == item
  {
    hide HeaderEncode, VarEncode, StringEncode;
    Regroup(HeaderEncode(h), item.Payload(), rest);
    NextHeader(dyp, h, item.Payload() + rest);
    if h.index == F_EOF {
      got := Eof;
    } else if h.index == F_PROTOCOL {
      var s := NextText(dyp, item.name, rest);
      got := Protocol(s);
    } else {
      var n := NextNumber(dyp, item.number, rest);
      got := if h.index == F_VERSION then Version(n) else ProtoVersion(n);
    }
  }

  // One turn of the loop: peek the type, then read the item.
  method NextItem(dyp: DyBuf, ghost item: Item, ghost rest: seq<byte>) returns (got: Item)
    requires dyp.Valid() && dyp.Pending() == item.Encode() + rest
    modifies dyp`position
    ensures dyp.Consumed(|item.Encode()|) && dyp.Pending() == rest && got == item
  {
    hide Item.Payload;
    Regroup(HeaderEncode(item.Head()), item.Payload(), rest);
    HeaderRoundTrip(item.Head(), item.Payload() + rest);
    var h := PeekTypdex(dyp);
    if h.typ == TYPE_F {
      got := NextFunction(dyp, h, item, rest);
    } else {
      got := NextValue(dyp, h, item, rest);
    }
  }

  // Reading a stream of items gives back the items written, in order, up to the
  // first end-of-file item, and then everything behind that item is pending;
  // without one the stream is used up.
  method ReadAll(dyp: DyBuf, ghost items: seq<Item>) returns (out: seq<Item>)
    requires dyp.Valid() && dyp.Pending() == EncodeAll(items)
    modifies dyp`position
    ensures dyp.Valid() && out <= items && Eof !in out
    ensures |out| < |items| ==> items[|out|] == Eof && dyp.Pending() == EncodeAll(items[|out| + 1..])
    ensures |out| == |items| ==> dyp.Remainder() == 0
    ensures Eof !in items ==> out == items && dyp.Remainder() == 0
  {
    hide HeaderEncode, VarEncode, BlockEncode, StringEncode;
    out := [];
    ghost var left := items;
    while dyp.Remainder() > 0
      invariant dyp.Valid() && dyp.Pending() == EncodeAll(left)
      invariant items == out + left && Eof !in out
      decreases |left|
    {
      var item := NextItem(dyp, left[0], EncodeAll(left[1..]));
      if item.Eof? {
        assert items[|out| + 1..] == left[1..];
        return;
      }
      out := out + [item];
      left := left[1..];
    }
    ItemsAreNotEmpty(left);
  }

  lemma ItemsAreNotEmpty(items: seq<Item>)
    ensures EncodeAll(items) == [] ==> items == []
  {
    if items != [] { EncodableHeaders(items[0].Head()); }
  }

  // A stream determines its items.
  lemma {:induction false} StreamsAreUnambiguous(xs: seq<Item>, ys: seq<Item>)
    requires EncodeAll(xs) == EncodeAll(ys)
    ensures xs == ys
  {
    ItemsAreNotEmpty(xs);
    ItemsAreNotEmpty(ys);
    if xs != [] && ys != [] {
      ItemsDiffer(xs[0], EncodeAll(xs[1..]), ys[0], EncodeAll(ys[1..]));
      assert EncodeAll(xs[1..]) == EncodeAll(xs)[|xs[0].Encode()|..];
      assert EncodeAll(ys[1..]) == EncodeAll(ys)[|ys[0].Encode()|..];
      StreamsAreUnambiguous(xs[1..], ys[1..]);
      assert xs == [xs[0]] + xs[1..] && ys == [ys[0]] + ys[1..];
    }
  }

  lemma ItemsDiffer(x: Item, xs: seq<byte>, y: Item, ys: seq<byte>)
    requires x.Encode() + xs == y.Encode() + ys
    ensures x == y
  {
    Regroup(HeaderEncode(x.Head()), x.Payload(), xs);
    Regroup(HeaderEncode(y.Head()), y.Payload(), ys);
    HeadersAgree(x.Head(), x.Payload() + xs, y.Head(), y.Payload() + ys);
    PayloadsDiffer(x, xs, y, ys);
  }

  lemma HeadersAgree(h: Header, p: seq<byte>, k: Header, q: seq<byte>)
    requires h.typ <= 0xFF && h.index <= 0xF_FFFF && k.typ <= 0xFF && k.index <= 0xF_FFFF
    requires HeaderEncode(h) + p == HeaderEncode(k) + q
    ensures h == k && p == q
  {
    HeaderRoundTrip(h, p);
    HeaderRoundTrip(k, q);
    assert p == (HeaderEncode(h) + p)[|HeaderEncode(h)|..];
    assert q == (HeaderEncode(k) + q)[|HeaderEncode(k)|..];
  }

  lemma PayloadsDiffer(x: Item, xs: seq<byte>, y: Item, ys: seq<byte>)
    requires x.Head() == y.Head() && x.Payload() + xs == y.Payload() + ys
    ensures x == y
  {
    hide VarEncode, BlockEncode, ZigZag;
    match x
    case Bool(_, b) => assert (x.Payload() + xs)[0] == (y.Payload() + ys)[0];
    case Int(_, v) =>
      RoundTrip(ZigZag(v), xs);
      RoundTrip(ZigZag(y.v), ys);
      ZigZagBijective(v, 0);
      ZigZagBijective(y.v, 0);
    case Uint(_, u) => RoundTrip(u, xs); RoundTrip(y.u, ys);
    case String(_, s) => BlocksDiffer(s + [0], xs, y.s + [0], ys); assert s == (s + [0])[..|s|];
    case Bytes(_, data) => BlocksDiffer(data, xs, y.data, ys);
    case Version(n) => RoundTrip(n, xs); RoundTrip(y.number, ys);
    case Protocol(s) => BlocksDiffer(s + [0], xs, y.name + [0], ys); assert s == (s + [0])[..|s|];
    case ProtoVersion(n) => RoundTrip(n, xs); RoundTrip(y.number, ys);
    case Eof =>
  }

  lemma BlocksDiffer(x: block, xs: seq<byte>, y: block, ys: seq<byte>)
    requires BlockEncode(x) + xs == BlockEncode(y) + ys
    ensures x == y
  {
    hide BlockEncode, BlockDecode, VarDecode;
    BlockRoundTrip(x, xs);
    BlockRoundTrip(y, ys);
  }

  // The bytes themselves: type and index of an item with an index below 8 share
  // one byte.
  lemma ItemBytes(item: Item)
    ensures match item
            case Bool(i, b) => i < 8 ==> item.Encode() == [0x08 + i, if b then 1 else 0]
            case Int(i, v) => i < 8 ==> item.Encode() == [0x10 + i] + VarEncode(ZigZag(v))
            case Uint(i, u) => i < 8 ==> item.Encode() == [0x18 + i] + VarEncode(u)
            case String(i, s) => i < 8 ==> item.Encode() == [0x50 + i] + VarEncode(|s| + 1) + s + [0]
            case Bytes(i, data) => i < 8 ==> item.Encode() == [0x58 + i] + VarEncode(|data|) + data
            case Version(n) => item.Encode() == [0x79] + VarEncode(n)
            case Protocol(s) => item.Encode() == [0x7F] + VarEncode(|s| + 1) + s + [0]
            case ProtoVersion(n) => item.Encode() == [0x80 + 0xF, 8] + VarEncode(n)
            case Eof => item.Encode() == [0x78]
  {
    hide VarEncode;
    HeaderBytes(item.Head());
  }
}
