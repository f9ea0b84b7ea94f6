// The records of the pack format and their bytes.

module Records {
  import opened Bits
  import opened Bytes
  import opened VarInt
  import opened Typdex
  import opened Codec

  const PKR_INTEGER := 0x1
  const PKR_RAW := 0x7
  const PKR_ARRAY := 0x8
  const PKR_OBJECT_REF := 0xA
  const PKR_OBJECT := 0xB
  const PKR_CONTEXT := 0xC
  const PKR_DB := 0xE
  const PKR_FUNCTION := 0xF

  const FN_VERSION := 1
  const DB_CLASS_NAMES := 1
  const PACKER_VERSION_V1: uint64 := 1

  datatype Record =
    | Version(number: uint64)
    | VarInt(key: nat, v: int64)
    | Raw(key: nat, data: block)
    | ArrayStart(key: nat, len: nat)
    | ArrayEnd(key: nat)
    | ObjRef(key: nat, num: nat)
    | ObjStart(num: nat, cls: nat)
    | ObjEnd(num: nat)
    | NextContext(cls: nat)
    | ClassDb(cls: nat, name: text)
  {
    function Head(): Header
    {
      match this
      case Version(_) => Header(PKR_FUNCTION, FN_VERSION)
      case VarInt(key, _) => Header(PKR_INTEGER, key)
      case Raw(key, _) => Header(PKR_RAW, key)
      case ArrayStart(key, _) => Header(PKR_ARRAY, key)
      case ArrayEnd(key) => Header(PKR_ARRAY, key)
      case ObjRef(key, _) => Header(PKR_OBJECT_REF, key)
      case ObjStart(num, _) => Header(PKR_OBJECT, num)
      case ObjEnd(num) => Header(PKR_OBJECT, num)
      case NextContext(cls) => Header(PKR_CONTEXT, cls)
      case ClassDb(_, _) => Header(PKR_DB, DB_CLASS_NAMES)
    }

    // Numbers within the 20 bits of a header and the widths of the payloads.
    predicate Legal()
    {
      Head().index <= 0xF_FFFF
      && match this
         case ArrayStart(_, len) => len < UINT_MAX
         case ObjRef(_, num) => num <= UINT_MAX
         case ObjStart(_, cls) => cls <= UINT_MAX
         case ClassDb(cls, _) => cls <= UINT_MAX
         case _ => true
    }

    function Payload(): seq<byte>
      requires Legal()
    {
      match this
      case Version(v) => VarEncode(v)
      case VarInt(_, v) => VarEncode(ZigZag(v))
      case Raw(_, data) => BlockEncode(data)
      case ArrayStart(_, len) => VarEncode(len + 1)
      case ArrayEnd(_) => VarEncode(0)
      case ObjRef(_, num) => VarEncode(num)
      case ObjStart(_, cls) => VarEncode(cls)
      case ObjEnd(_) => []
      case NextContext(_) => []
      case ClassDb(cls, name) => VarEncode(cls) + StringEncode(name)
    }

    function Encode(): seq<byte>
      requires Legal()
    {
      HeaderEncode(Head()) + Payload()
    }
  }

  ghost predicate AllLegal(rs: seq<Record>) { forall r | r in rs :: r.Legal() }

  function EncodeAll(rs: seq<Record>): seq<byte>
    requires AllLegal(rs)
  {
    if rs == [] then [] else rs[0].Encode() + EncodeAll(rs[1..])
  }

  lemma {:induction false} EncodeConcat(a: seq<Record>, b: seq<Record>)
    requires AllLegal(a) && AllLegal(b)
    ensures AllLegal(a + b) && EncodeAll(a + b) == EncodeAll(a) + EncodeAll(b)
  {
    hide Record.Encode, Record.Legal;
    if a == [] {
      assert a + b == b;
    } else {
      assert (a + b)[1..] == a[1..] + b;
      EncodeConcat(a[1..], b);
    }
  }

  lemma EncodeSnoc(a: seq<Record>, r: Record)
    requires AllLegal(a) && r.Legal()
    ensures AllLegal(a + [r]) && EncodeAll(a + [r]) == EncodeAll(a) + r.Encode()
  {
    EncodeConcat(a, [r]);
    assert [r][1..] == [];
    assert EncodeAll([r]) == r.Encode() + EncodeAll([]);
  }

  lemma SmallNumber(v: uint64)
    ensures v <= 0x7F ==> VarEncode(v) == [v]
  {
    if v <= 0x7F {
      assert Bias(1) == 0x80 && Band(v) == 0;
      OneByte(v);
    }
  }

  // The bytes themselves: the kind of a record and a number below 8 share one
  // byte.
  lemma RecordBytes(r: Record)
    requires r.Legal() && r.Head().index < 8
    ensures match r
            case Version(n) => r.Encode() == [0x79] + VarEncode(n)
            case VarInt(key, v) => r.Encode() == [0x08 + key] + VarEncode(ZigZag(v))
            case Raw(key, data) => r.Encode() == [0x38 + key] + VarEncode(|data|) + data
            case ArrayStart(key, len) => r.Encode() == [0x40 + key] + VarEncode(len + 1)
            case ArrayEnd(key) => r.Encode() == [0x40 + key, 0]
            case ObjRef(key, num) => r.Encode() == [0x50 + key] + VarEncode(num)
            case ObjStart(num, cls) => r.Encode() == [0x58 + num] + VarEncode(cls)
            case ObjEnd(num) => r.Encode() == [0x58 + num]
            case NextContext(cls) => r.Encode() == [0x60 + cls]
            case ClassDb(cls, name) => r.Encode() == [0x71] + VarEncode(cls) + VarEncode(|name| + 1) + name + [0]
  {
    hide VarEncode;
    HeaderBytes(r.Head());
    SmallNumber(0);
  }
}
