// Byte strings, their big-endian value and their lexicographic order.

module Bytes {
  import opened Bits

  type byte = x: int | 0 <= x < 256

  // Strings without their terminator, as strlen sees them; strings and blocks
  // whose size fits 32 bits.
  type cstring = s: seq<byte> | 0 !in s

  type text = s: cstring | |s| < UINT_MAX

  type block = s: seq<byte> | |s| <= UINT_MAX

  // The n low bytes of v, most significant first.
  function BE(n: nat, v: nat): (s: seq<byte>)
    ensures |s| == n
  {
    if n == 0 then [] else BE(n - 1, v / 256) + [v % 256]
  }

  function Value(s: seq<byte>): nat
  {
    if |s| == 0 then 0 else Value(s[..|s| - 1]) * 256 + s[|s| - 1]
  }

  function Pow256(n: nat): (r: nat)
    ensures r > 0
  {
    if n == 0 then 1 else 256 * Pow256(n - 1)
  }

  lemma ModNest(v: nat, p: nat)
    requires p > 0
    ensures v % (256 * p) == (v / 256 % p) * 256 + v % 256
  {
    var q, r := v / 256 / p, v / 256 % p;
    assert (q * p) * 256 == q * (256 * p);
    DivModUnique(v, 256 * p, q, r * 256 + v % 256);
  }

  lemma {:induction false} ValueOfBE(n: nat, v: nat)
    ensures Value(BE(n, v)) == v % Pow256(n)
  {
    if n > 0 {
      ValueOfBE(n - 1, v / 256);
      var s := BE(n, v);
      assert s[..n - 1] == BE(n - 1, v / 256) && s[n - 1] == v % 256;
      ModNest(v, Pow256(n - 1));
    }
  }

  lemma {:induction false} ValueBound(s: seq<byte>)
    ensures Value(s) < Pow256(|s|)
  {
    if |s| > 0 { ValueBound(s[..|s| - 1]); }
  }

  lemma {:induction false} BEOfValue(s: seq<byte>)
    ensures BE(|s|, Value(s)) == s
  {
    if |s| > 0 {
      var t := s[..|s| - 1];
      BEOfValue(t);
      assert Value(s) / 256 == Value(t) && Value(s) % 256 == s[|s| - 1];
    }
  }

  lemma {:induction false} ValueConcat(s: seq<byte>, t: seq<byte>)
    ensures Value(s + t) == Value(s) * Pow256(|t|) + Value(t)
  {
    if |t| == 0 {
      assert s + t == s;
      assert Value(s) * Pow256(0) == Value(s);
    } else {
      var t' := t[..|t| - 1];
      assert (s + t)[..|s + t| - 1] == s + t';
      ValueConcat(s, t');
      ShiftedSum(Value(s), Pow256(|t'|), Value(t'), t[|t| - 1]);
    }
  }

  lemma ShiftedSum(a: nat, p: nat, v: nat, b: nat)
    ensures (a * p + v) * 256 + b == a * (256 * p) + (v * 256 + b)
  {
    assert a * p * 256 == a * (256 * p);
  }

  // The order in which memcmp and strcmp see byte strings: first difference
  // decides, a proper prefix comes first.
  predicate LexLess(s: seq<int>, t: seq<int>)
  {
    if |t| == 0 then false
    else if |s| == 0 then true
    else s[0] < t[0] || (s[0] == t[0] && LexLess(s[1..], t[1..]))
  }

  // On strings of one length the lexicographic order is the numeric one.
  lemma {:induction false} LexIsNumeric(s: seq<byte>, t: seq<byte>)
    requires |s| == |t|
    ensures LexLess(s, t) <==> Value(s) < Value(t)
  {
    if |s| > 0 {
      var s', t' := s[1..], t[1..];
      assert s == [s[0]] + s' && t == [t[0]] + t';
      LexIsNumeric(s', t');
      ValueConcat([s[0]], s');
      ValueConcat([t[0]], t');
      ValueBound(s');
      ValueBound(t');
      assert Value([s[0]]) == s[0] && Value([t[0]]) == t[0];
      var p := Pow256(|s'|);
      assert s[0] < t[0] ==> s[0] * p + p <= t[0] * p by {
        if s[0] < t[0] { MulLess(s[0] + 1, t[0], p); }
      }
      assert t[0] < s[0] ==> t[0] * p + p <= s[0] * p by {
        if t[0] < s[0] { MulLess(t[0] + 1, s[0], p); }
      }
    }
  }

  lemma MulLess(a: int, b: int, p: nat)
    requires a <= b
    ensures a * p <= b * p
    ensures (a - 1) * p + p == a * p
  {}

  lemma {:induction false} LexTotal(s: seq<int>, t: seq<int>)
    ensures LexLess(s, t) || s == t || LexLess(t, s)
    ensures !(LexLess(s, t) && LexLess(t, s)) && !LexLess(s, s)
  {
    if |s| > 0 && |t| > 0 {
      LexTotal(s[1..], t[1..]);
      assert s == [s[0]] + s[1..] && t == [t[0]] + t[1..];
      LexIrreflexive(s);
    } else if |s| > 0 {
      LexIrreflexive(s);
    }
  }

  lemma {:induction false} LexIrreflexive(s: seq<int>)
    ensures !LexLess(s, s)
  {
    if |s| > 0 { LexIrreflexive(s[1..]); }
  }

  lemma {:induction false} LexTransitive(s: seq<int>, t: seq<int>, u: seq<int>)
    requires LexLess(s, t) && LexLess(t, u)
    ensures LexLess(s, u)
  {
    if |s| > 0 && s[0] == t[0] && t[0] == u[0] {
      LexTransitive(s[1..], t[1..], u[1..]);
    }
  }

  lemma Regroup<T>(a: seq<T>, b: seq<T>, c: seq<T>)
    ensures (a + b) + c == a + (b + c)
  {}
}
