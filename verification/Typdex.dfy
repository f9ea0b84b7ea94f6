// The type/index header: four forms of one to four bytes, told apart by their
// leading bits.

module Typdex {
  import opened Bits
  import opened Bytes
  import opened VarInt

  datatype Header = Header(typ: nat, index: nat)

  // Bits that form n (in bytes) leaves for the type and for the index.
  function TypeLimit(n: nat): nat
    requires 1 <= n <= 4
  {
    [0x10, 0x40, 0x100, 0x100][n - 1]
  }

  function IndexLimit(n: nat): nat
    requires 1 <= n <= 4
  {
    [0x8, 0x100, 0x2000, 0x10_0000][n - 1]
  }

  predicate Fits(h: Header, n: nat)
    requires 1 <= n <= 4
  {
    h.typ < TypeLimit(n) && h.index < IndexLimit(n)
  }

  // The value written by form n: its mark, then the type, then the index.
  function Form(h: Header, n: nat): nat
    requires 1 <= n <= 4
  {
    Mark(n) + h.typ * IndexLimit(n) + h.index
  }

  function Mark(n: nat): nat
    requires 1 <= n <= 4
  {
    [0, 0x8000, 0xC0_0000, 0xE000_0000][n - 1]
  }

  function Shortest(h: Header): (n: nat)
    ensures n <= 4
    ensures n > 0 ==> Fits(h, n)
  {
    if Fits(h, 1) then 1 else if Fits(h, 2) then 2 else if Fits(h, 3) then 3
    else if Fits(h, 4) then 4 else 0
  }

  // A header that fits no form is not written at all.
  function HeaderEncode(h: Header): (s: seq<byte>)
    ensures |s| <= 4
  {
    var n := Shortest(h);
    if n == 0 then [] else BE(n, Form(h, n))
  }

  // The length of the form announced by its first byte; 0 for the byte values
  // 0xF0 and above, which announce none.
  function FormOf(b: byte): (n: nat)
    ensures n <= 4
  {
    if b < 0x80 then 1 else if b < 0xC0 then 2 else if b < 0xE0 then 3 else if b < 0xF0 then 4 else 0
  }

  // On an unknown first byte the source reports that byte as the type, index 0,
  // and consumes nothing.
  function HeaderDecode(s: seq<byte>): (d: Decoded<Header>)
    ensures d.Read? ==> d.size <= |s|
  {
    if |s| == 0 then Short
    else
      var n := FormOf(s[0]);
      if n == 0 then Read(Header(s[0], 0), 0)
      else if |s| < n then Short
      else
        var v := Value(s[..n]);
        Read(Header(v / IndexLimit(n) % TypeLimit(n), v % IndexLimit(n)), n)
  }

  // Shortest really is the shortest form that fits, and a form exists exactly
  // for types below 2^8 and indices below 2^20.
  lemma ShortestIsMinimal(h: Header, n: nat)
    requires 1 <= n <= 4 && Fits(h, n)
    ensures 1 <= |HeaderEncode(h)| <= n
    ensures |HeaderEncode(h)| < n ==> Fits(h, |HeaderEncode(h)|)
  {}

  lemma EncodableHeaders(h: Header)
    ensures HeaderEncode(h) != [] <==> h.typ <= 0xFF && h.index <= 0xF_FFFF
  {
    var n := Shortest(h);
    if n > 0 { assert |BE(n, Form(h, n))| == n; }
  }

  lemma FormBytes(h: Header, n: nat)
    requires 1 <= n <= 4 && Fits(h, n)
    ensures Form(h, n) < Pow256(n)
    ensures FormOf(BE(n, Form(h, n))[0]) == n
  {
    hide Form, Mark, MarkEnd, Unit, FormOf, BE, Pow256;
    FormRange(h, n);
    FirstOfBE(n, Form(h, n));
    UnitIsPow(n);
    HeadOfRange(Form(h, n), n);
  }

  lemma UnitIsPow(n: nat)
    requires 1 <= n <= 4
    ensures Pow256(n - 1) == Unit(n) && MarkEnd(n) <= Pow256(n)
  {
    PowTable();
  }

  function Unit(n: nat): (r: nat)
    requires 1 <= n <= 4
    ensures r > 0
  {
    [1, 0x100, 0x1_0000, 0x100_0000][n - 1]
  }

  // Where the values of form n end.
  function MarkEnd(n: nat): nat
    requires 1 <= n <= 4
  {
    [0x80, 0xC000, 0xE0_0000, 0xF000_0000][n - 1]
  }

  lemma FormRange(h: Header, n: nat)
    requires 1 <= n <= 4 && Fits(h, n)
    ensures Mark(n) <= Form(h, n) < MarkEnd(n)
  {
    MulLess(h.typ + 1, TypeLimit(n), IndexLimit(n));
  }

  lemma HeadOfRange(v: nat, n: nat)
    requires 1 <= n <= 4 && Mark(n) <= v < MarkEnd(n)
    ensures v / Unit(n) < 256 && FormOf(v / Unit(n)) == n
  {}

  lemma {:induction false} FirstOfBE(n: nat, v: nat)
    requires n > 0
    ensures BE(n, v)[0] == v / Pow256(n - 1) % 256
  {
    if n > 1 {
      FirstOfBE(n - 1, v / 256);
      assert BE(n, v)[0] == BE(n - 1, v / 256)[0];
      DivNest(v, Pow256(n - 2));
    }
  }

  lemma DivNest(v: nat, p: nat)
    requires p > 0
    ensures v / 256 / p == v / (256 * p)
  {
    ModNest(v, p);
    var q := v / 256 / p;
    assert (q * p) * 256 == q * (256 * p);
    DivModUnique(v, 256 * p, q, (v / 256 % p) * 256 + v % 256);
  }

  // Reading a written header gives the pair back and takes exactly its bytes.
  lemma HeaderRoundTrip(h: Header, rest: seq<byte>)
    requires h.typ <= 0xFF && h.index <= 0xF_FFFF
    ensures HeaderDecode(HeaderEncode(h) + rest) == Read(h, |HeaderEncode(h)|)
  {
    var n := Shortest(h);
    var v := Form(h, n);
    FormBytes(h, n);
    ValueOfBE(n, v);
    SmallMod(v, Pow256(n));
    assert (BE(n, v) + rest)[..n] == BE(n, v);
    FormParts(h, n);
  }

  lemma FormParts(h: Header, n: nat)
    requires 1 <= n <= 4 && Fits(h, n)
    ensures Form(h, n) / IndexLimit(n) % TypeLimit(n) == h.typ
    ensures Form(h, n) % IndexLimit(n) == h.index
  {
    var m, t := Mark(n) / IndexLimit(n), IndexLimit(n);
    assert Mark(n) == m * t && m % TypeLimit(n) == 0 by { MarkParts(n); }
    hide Mark, IndexLimit, TypeLimit;
    SplitSum(m, h.typ, t, h.index);
    AddedMultiple(m, h.typ, TypeLimit(n));
  }

  lemma MarkParts(n: nat)
    requires 1 <= n <= 4
    ensures var m := Mark(n) / IndexLimit(n); Mark(n) == m * IndexLimit(n) && m % TypeLimit(n) == 0
  {}

  lemma SplitSum(m: nat, typ: nat, t: nat, i: nat)
    requires i < t
    ensures (m * t + typ * t + i) / t == m + typ && (m * t + typ * t + i) % t == i
  {
    assert m * t + typ * t == (m + typ) * t;
    DivModUnique(m * t + typ * t + i, t, m + typ, i);
  }

  lemma AddedMultiple(m: nat, typ: nat, l: nat)
    requires l > 0 && m % l == 0 && typ < l
    ensures (m + typ) % l == typ
  {
    assert m == (m / l) * l;
    DivModUnique(m + typ, l, m / l, typ);
  }

  // The bytes of the four forms: one byte 0tttt_iii; 10 and six bits of type,
  // then the index; 110 and 1110, eight bits of type and thirteen or twenty of
  // index.
  lemma HeaderBytes(h: Header)
    ensures h.typ <= 0xF && h.index <= 7 ==> HeaderEncode(h) == [h.typ * 8 + h.index]
    ensures (h.typ > 0xF || h.index > 7) && h.typ <= 0x3F && h.index <= 0xFF ==>
      HeaderEncode(h) == [0x80 + h.typ, h.index]
    ensures (h.typ > 0x3F || h.index > 0xFF) && h.typ <= 0xFF && h.index <= 0x1FFF ==>
      HeaderEncode(h) == BE(3, 0xC0_0000 + h.typ * 0x2000 + h.index)
    ensures h.typ <= 0xFF && 0x1FFF < h.index <= 0xF_FFFF ==>
      HeaderEncode(h) == BE(4, 0xE000_0000 + h.typ * 0x10_0000 + h.index)
  {
    hide BE;
    if h.typ <= 0xF && h.index <= 7 {
      OneByte(h.typ * 8 + h.index);
    } else if h.typ <= 0x3F && h.index <= 0xFF {
      TwoBytes(0x80 + h.typ, h.index);
      assert Form(h, 2) == (0x80 + h.typ) * 256 + h.index;
    }
  }

  lemma OneByte(v: nat)
    ensures v < 256 ==> BE(1, v) == [v]
  {
    assert BE(0, v / 256) == [];
  }

  lemma TwoBytes(a: byte, b: byte)
    ensures BE(2, a * 256 + b) == [a, b]
  {
    OneByte(a);
    assert (a * 256 + b) / 256 == a && (a * 256 + b) % 256 == b;
  }

  // A first byte of four ones announces no form: it is reported as the type,
  // and nothing is consumed.
  lemma UnknownForm(s: seq<byte>)
    requires s != [] && s[0] >= 0xF0
    ensures HeaderDecode(s) == Read(Header(s[0], 0), 0)
  {}
}
