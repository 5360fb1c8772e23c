/** What decoding a JSON integer into a 64-bit float leaves of it: 53 significant bits, ties to even. */
module Float64 {
  import opened Net

  const EXACT := 0x20_0000_0000_0000

  /** How many low bits do not fit. */
  function Excess(n: nat): nat {
    if n < EXACT then 0 else 1 + Excess(n / 2)
  }

  function Scale(q: nat, k: nat): nat {
    if k == 0 then q else 2 * Scale(q, k - 1)
  }

  /** The nearest of the two representable neighbours. */
  function RoundAt(n: nat, k: nat): nat {
    var q := DropBits(n, k);
    var low, half := n - Scale(q, k), Scale(1, k);
    Scale(if 2 * low > half || (2 * low == half && q % 2 == 1) then q + 1 else q, k)
  }

  function Nearest(n: nat): nat {
    RoundAt(n, Excess(n))
  }

  /** The integer a decoded number stands for. */
  function Rounded(n: int): int {
    var m: int := Nearest(if n < 0 then -n else n);
    if n < 0 then -m else m
  }

  lemma {:induction false} ScaleUp(q: nat, k: nat)
    ensures DropBits(Scale(q, k), k) == q && Scale(2 * q, k) == Scale(q, k + 1)
  {
    if k != 0 {
      ScaleUp(q, k - 1);
    }
  }

  lemma {:induction false} ExcessOfScale(q: nat, k: nat)
    requires EXACT / 2 <= q < EXACT
    ensures Excess(Scale(q, k)) == k && (0 < k ==> EXACT <= Scale(q, k)) && q <= Scale(q, k)
  {
    if k != 0 {
      ExcessOfScale(q, k - 1);
    }
  }

  lemma ScaledIsExact(q: nat, k: nat)
    requires EXACT / 2 <= q <= EXACT
    ensures Nearest(Scale(q, k)) == Scale(q, k)
  {
    var h := if q == EXACT then EXACT / 2 else q;
    var j := if q == EXACT then k + 1 else k;
    ScaleUp(EXACT / 2, k);
    assert Scale(q, k) == Scale(h, j);
    ExcessOfScale(h, j);
    ScaleUp(h, j);
    OneScales(j);
  }

  lemma {:induction false} OneScales(k: nat)
    ensures 0 < Scale(1, k)
  {
    if k != 0 {
      OneScales(k - 1);
    }
  }

  lemma {:induction false} QuotientFits(n: nat)
    ensures DropBits(n, Excess(n)) < EXACT && (EXACT <= n ==> EXACT / 2 <= DropBits(n, Excess(n)))
  {
    if EXACT <= n {
      QuotientFits(n / 2);
      assert DropBits(n, Excess(n)) == DropBits(n / 2, Excess(n / 2));
    }
  }

  /** Integers of at most 53 bits survive decoding, up to and including 2^53. */
  lemma SmallIsExact(n: int)
    requires -EXACT <= n <= EXACT
    ensures Rounded(n) == n
  {
    var m: nat := if n < 0 then -n else n;
    if m == EXACT {
      assert Scale(EXACT / 2, 1) == EXACT;
      ScaledIsExact(EXACT / 2, 1);
    }
  }

  /** Decoding twice is decoding once. */
  lemma RoundedTwice(n: int)
    ensures Rounded(Rounded(n)) == Rounded(n)
  {
    var m: nat := if n < 0 then -n else n;
    QuotientFits(m);
    if EXACT <= m {
      var q := DropBits(m, Excess(m));
      ScaledIsExact(q, Excess(m));
      ScaledIsExact(q + 1, Excess(m));
    } else {
      SmallIsExact(m);
    }
  }

  /** The first integer that does not survive: 2^53 + 1 becomes 2^53. */
  lemma FirstLoss()
    ensures Rounded(EXACT + 1) == EXACT && Rounded(-EXACT - 1) == -EXACT
  {
    var half := EXACT / 2;
    assert Excess(EXACT + 1) == 1 + Excess(half) == 1;
    assert DropBits(EXACT + 1, 1) == DropBits(half, 0) == half;
    assert Scale(half, 1) == 2 * Scale(half, 0) == EXACT;
    assert Scale(1, 1) == 2 * Scale(1, 0) == 2;
    assert RoundAt(EXACT + 1, 1) == EXACT;
  }

  // ---------------------------------------------------------------- nearest, ties to even

  /** At most 53 significant bits: what a 64-bit float holds of the integers, its range aside. */
  ghost predicate Representable(r: nat) {
    exists q: nat, k: nat :: q <= EXACT && r == Scale(q, k)
  }

  lemma {:induction false} ScaleSplits(q: nat, i: nat, j: nat)
    ensures Scale(q, i + j) == Scale(Scale(q, i), j)
  {
    if j != 0 {
      ScaleSplits(q, i, j - 1);
    }
  }

  lemma {:induction false} ScaleGrows(a: nat, b: nat, k: nat)
    ensures a <= b ==> Scale(a, k) <= Scale(b, k)
    ensures Scale(a + 1, k) == Scale(a, k) + Scale(1, k)
  {
    if k != 0 {
      ScaleGrows(a, b, k - 1);
    }
  }

  lemma {:induction false} ScaleAtLeast(q: nat, k: nat)
    ensures q <= Scale(q, k)
  {
    if k != 0 {
      ScaleAtLeast(q, k - 1);
    }
  }

  lemma {:induction false} Between(n: nat, k: nat)
    ensures Scale(DropBits(n, k), k) <= n < Scale(DropBits(n, k) + 1, k)
  {
    if k != 0 {
      Between(n / 2, k - 1);
    }
  }

  /** No representable integer lies strictly between the two neighbours. */
  lemma NoneBetween(q: nat, k: nat, r: nat)
    requires EXACT / 2 <= q && 0 < k && Representable(r)
    ensures r <= Scale(q, k) || Scale(q + 1, k) <= r
  {
    var p: nat, j: nat :| p <= EXACT && r == Scale(p, j);
    if k <= j {
      ScaleSplits(p, j - k, k);
      var w := Scale(p, j - k);
      ScaleGrows(w, q, k);
      ScaleGrows(q + 1, w, k);
    } else {
      ScaleSplits(EXACT, j, k - 1 - j);
      ScaleAtLeast(Scale(EXACT, j), k - 1 - j);
      ScaleGrows(p, EXACT, j);
      ScaleUp(EXACT / 2, k - 1);
      ScaleGrows(EXACT / 2, q, k);
    }
  }

  function Distance(a: nat, b: nat): nat {
    if a < b then b - a else a - b
  }

  /** The nearer of two neighbours `step` apart, the odd flag deciding a tie. */
  lemma NearerNeighbour(below: nat, step: nat, n: nat, r: nat, odd: bool)
    requires below <= n < below + step && (r <= below || below + step <= r)
    ensures var low := n - below;
            var m := if 2 * low > step || (2 * low == step && odd) then below + step else below;
            && Distance(m, n) <= Distance(r, n)
            && (r != m && Distance(r, n) == Distance(m, n) ==> 2 * low == step)
  {
  }

  /** A multiple of the next power of two: its last significant bit is 0. */
  ghost predicate EvenAt(m: nat, k: nat) {
    exists h: nat :: m == Scale(h, k) && h % 2 == 0
  }

  /** The two neighbours of an integer that does not fit, and which of them is taken. */
  lemma Neighbours(n: nat) returns (q: nat, k: nat, below: nat, step: nat)
    requires EXACT <= n
    ensures k == Excess(n) && 0 < k && EXACT / 2 <= q && below == Scale(q, k) && step == Scale(1, k)
    ensures Scale(q + 1, k) == below + step && below <= n < below + step
    ensures var low := n - below;
            Nearest(n) == if 2 * low > step || (2 * low == step && q % 2 == 1) then below + step else below
  {
    q, k := DropBits(n, Excess(n)), Excess(n);
    below, step := Scale(q, k), Scale(1, k);
    QuotientFits(n);
    Between(n, k);
    ScaleGrows(q, q, k);
  }

  /** Decoding gives the nearest representable integer, and of two nearest ones the even multiple. */
  lemma NearestIsNearest(n: nat, r: nat)
    requires Representable(r)
    ensures Distance(Nearest(n), n) <= Distance(r, n)
    ensures r != Nearest(n) && Distance(r, n) == Distance(Nearest(n), n) ==> EvenAt(Nearest(n), Excess(n))
  {
    if n < EXACT {
      assert Nearest(n) == n;
    } else {
      var q, k, below, step := Neighbours(n);
      NoneBetween(q, k, r);
      NearerNeighbour(below, step, n, r, q % 2 == 1);
      assert EvenAt(if q % 2 == 1 then below + step else below, k) by {
        var h := if q % 2 == 1 then q + 1 else q;
        assert Scale(h, k) == (if q % 2 == 1 then below + step else below) && h % 2 == 0;
      }
    }
  }

  lemma NearestIsRepresentable(n: nat)
    ensures Representable(Nearest(n))
  {
    QuotientFits(n);
    var k, q := Excess(n), DropBits(n, Excess(n));
    if n < EXACT {
      assert Nearest(n) == n == Scale(n, 0);
    } else {
      assert Nearest(n) == Scale(q, k) || Nearest(n) == Scale(q + 1, k);
    }
  }

  lemma RoundedIsOdd(n: int)
    ensures Rounded(-n) == -Rounded(n) && (0 <= n ==> Rounded(n) == Nearest(n))
  {
    SmallIsExact(0);
  }
}
