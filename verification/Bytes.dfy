/** Byte strings read as big-endian numbers. */
module Bytes {

  function Value(bytes: seq<nat>): nat {
    if bytes == [] then 0 else Value(bytes[..|bytes| - 1]) * 256 + bytes[|bytes| - 1]
  }

  /** 256^n, the weight of the n-th byte from the right. */
  function Weight(n: nat): (w: nat)
    ensures 0 < w
  {
    if n == 0 then 1 else 256 * Weight(n - 1)
  }

  predicate IsBytes(s: seq<nat>) {
    forall i | 0 <= i < |s| :: s[i] < 256
  }

  lemma {:induction false} ValueConcat(a: seq<nat>, b: seq<nat>)
    ensures Value(a + b) == Value(a) * Weight(|b|) + Value(b)
  {
    if b == [] {
      assert a + b == a;
    } else {
      var c := b[..|b| - 1];
      assert (a + b)[..|a + b| - 1] == a + c;
      ValueConcat(a, c);
      Distribute(Value(a), Weight(|c|), Value(c), b[|b| - 1]);
    }
  }

  lemma Distribute(x: nat, w: nat, y: nat, z: nat)
    ensures (x * w + y) * 256 + z == x * (256 * w) + (y * 256 + z)
  {
  }

  lemma {:induction false} ValueBound(s: seq<nat>)
    requires IsBytes(s)
    ensures Value(s) < Weight(|s|)
  {
    if s != [] {
      ValueBound(s[..|s| - 1]);
    }
  }

  /** The `n` low bytes of `v`, most significant first. */
  function BigEndian(v: nat, n: nat): (s: seq<nat>)
    ensures |s| == n && IsBytes(s)
  {
    if n == 0 then [] else BigEndian(v / 256, n - 1) + [v % 256]
  }

  lemma {:induction false} BigEndianRoundTrip(v: nat, n: nat)
    requires v < Weight(n)
    ensures Value(BigEndian(v, n)) == v
  {
    if n != 0 {
      BigEndianRoundTrip(v / 256, n - 1);
      assert BigEndian(v, n)[..n - 1] == BigEndian(v / 256, n - 1);
    }
  }

  lemma {:induction false} BigEndianWraps(v: nat, n: nat)
    ensures BigEndian(v + Weight(n), n) == BigEndian(v, n)
  {
    if n != 0 {
      BigEndianWraps(v / 256, n - 1);
    }
  }

  /** Byte order: the first differing byte decides. */
  predicate ByteLess(a: seq<nat>, b: seq<nat>) {
    if a == [] || b == [] then |a| < |b|
    else a[0] < b[0] || (a[0] == b[0] && ByteLess(a[1..], b[1..]))
  }

  predicate ByteLe(a: seq<nat>, b: seq<nat>) {
    !ByteLess(b, a)
  }

  lemma {:induction false} ByteLeLinear(a: seq<nat>, b: seq<nat>)
    ensures ByteLe(a, b) || ByteLe(b, a)
    ensures ByteLe(a, b) && ByteLe(b, a) ==> a == b
  {
    if a != [] && b != [] && a[0] == b[0] {
      ByteLeLinear(a[1..], b[1..]);
      assert a == [a[0]] + a[1..] && b == [b[0]] + b[1..];
    }
  }

  lemma {:induction false} ByteLeTransitive(a: seq<nat>, b: seq<nat>, c: seq<nat>)
    requires ByteLe(a, b) && ByteLe(b, c)
    ensures ByteLe(a, c)
  {
    if a != [] && b != [] && c != [] && a[0] == b[0] == c[0] {
      ByteLeTransitive(a[1..], b[1..], c[1..]);
    }
  }

  lemma OneByte(b: nat)
    ensures Value([b]) == b
  {
    assert [b][..0] == [];
  }

  lemma HeadValue(s: seq<nat>)
    requires s != [] && IsBytes(s)
    ensures Value(s) == s[0] * Weight(|s| - 1) + Value(s[1..]) && Value(s[1..]) < Weight(|s| - 1)
  {
    OneByte(s[0]);
    assert s == [s[0]] + s[1..];
    ValueConcat([s[0]], s[1..]);
    ValueBound(s[1..]);
  }

  lemma HigherByteWins(x: nat, y: nat, w: nat, p: nat, q: nat)
    requires x < y && p < w
    ensures x * w + p < y * w + q
  {
    assert (x + 1) * w <= y * w;
  }

  /** On byte strings of one length, byte order is numeric order. */
  lemma {:induction false} ByteOrderIsNumeric(a: seq<nat>, b: seq<nat>)
    requires |a| == |b| && IsBytes(a) && IsBytes(b)
    ensures ByteLess(a, b) <==> Value(a) < Value(b)
    ensures a == b <==> Value(a) == Value(b)
  {
    if a != [] {
      HeadValue(a);
      HeadValue(b);
      var w := Weight(|a| - 1);
      ByteOrderIsNumeric(a[1..], b[1..]);
      if a[0] < b[0] {
        HigherByteWins(a[0], b[0], w, Value(a[1..]), Value(b[1..]));
      } else if b[0] < a[0] {
        HigherByteWins(b[0], a[0], w, Value(b[1..]), Value(a[1..]));
      } else {
        assert a == [a[0]] + a[1..] && b == [b[0]] + b[1..];
      }
    }
  }

  // ---------------------------------------------------------------- hexadecimal

  const HEX := "0123456789abcdef"

  predicate IsHex(c: char) {
    '0' <= c <= '9' || 'a' <= c <= 'f' || 'A' <= c <= 'F'
  }

  function HexValue(c: char): nat {
    if '0' <= c <= '9' then c as int - '0' as int
    else if 'a' <= c <= 'f' then c as int - 'a' as int + 10
    else if 'A' <= c <= 'F' then c as int - 'A' as int + 10
    else 0
  }

  lemma HexDigitValue(n: nat)
    requires n < 16
    ensures IsHex(HEX[n]) && HEX[n] != '-' && HexValue(HEX[n]) == n
  {
  }
}
