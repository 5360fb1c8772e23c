/** IPv6 allocation: a byte-wise carry addition, and a walk that must stop early. */
module Allocator6 {
  import opened Allocator
  import opened Bytes
  import opened Net

  lemma {:induction false} WeightIsPow(n: nat)
    ensures Weight(n) == Pow2(8 * n)
  {
    if n != 0 {
      WeightIsPow(n - 1);
      var m := 8 * n;
      assert Pow2(m) == 2 * Pow2(m - 1) == 4 * Pow2(m - 2) == 8 * Pow2(m - 3) == 16 * Pow2(m - 4);
      assert Pow2(m - 4) == 2 * Pow2(m - 5) == 4 * Pow2(m - 6) == 8 * Pow2(m - 7) == 16 * Pow2(m - 8);
    }
  }

  /** One byte of the carry loop, in terms of what is still to be added. */
  lemma CarryStep(byte: nat, carry: nat, w: nat, tail: nat, want: nat)
    requires tail + carry * w == want
    ensures var sum := byte + carry % 256;
            (sum % 256) * w + tail + (carry / 256 + sum / 256) * (256 * w) == byte * w + want
  {
    var sum := byte + carry % 256;
    var lo, hi := sum % 256, carry / 256 + sum / 256;
    assert lo + 256 * hi == byte + carry;
    calc {
      lo * w + tail + hi * (256 * w);
    == { assert hi * (256 * w) == (256 * hi) * w; }
      lo * w + (256 * hi) * w + tail;
    == { assert lo * w + (256 * hi) * w == (lo + 256 * hi) * w; }
      (lo + 256 * hi) * w + tail;
    == { assert (byte + carry) * w == byte * w + carry * w; }
      byte * w + want;
    }
  }

  const U64 := 0x1_0000_0000_0000_0000

  lemma EightBytes()
    ensures Weight(8) == U64 == Pow2(64)
  {
    assert Weight(2) == 0x1_0000;
    assert Weight(4) == 0x1_0000_0000;
    assert Weight(6) == 0x1_0000_0000_0000;
    WeightIsPow(8);
  }

  /** Byte `j` is done: the invariant moves one byte to the left. */
  lemma ByteDone(base: seq<nat>, was: seq<nat>, now: seq<nat>, j: nat, carry: nat, i: nat)
    requires |base| == |was| == 16 && j < 16 && was[j] == base[j]
    requires now == was[j := (base[j] + carry % 256) % 256]
    requires Value(was[j + 1..]) + carry * Weight(15 - j) == Value(base[j + 1..]) + i
    ensures Value(now[j..]) + (carry / 256 + (base[j] + carry % 256) / 256) * Weight(16 - j) == Value(base[j..]) + i
  {
    var w := Weight(15 - j);
    assert now[j..] == [now[j]] + was[j + 1..] && base[j..] == [base[j]] + base[j + 1..];
    ValueConcat([now[j]], was[j + 1..]);
    ValueConcat([base[j]], base[j + 1..]);
    assert Value([now[j]]) == now[j] && Value([base[j]]) == base[j];
    CarryStep(base[j], carry, w, Value(was[j + 1..]), Value(base[j + 1..]) + i);
  }

  lemma WrappedSum(v: nat, carry: nat, total: nat, w: nat)
    requires v < U64 && v + carry * w == total && (carry == 0 || w == U64)
    ensures v == total % U64
  {
    if carry != 0 {
      assert total == v + carry * U64;
    }
  }

  /** When the loop stops, the untouched bytes and the finished ones make up the sum. */
  lemma SumComplete(base: seq<nat>, now: seq<nat>, j: nat, carry: nat, i: nat)
    requires |base| == |now| == 16 && 7 <= j <= 15 && IsBytes(now) && (carry == 0 || j == 7)
    requires now[..j + 1] == base[..j + 1]
    requires Value(now[j + 1..]) + carry * Weight(15 - j) == Value(base[j + 1..]) + i
    ensures now[..8] == base[..8] && Value(now[8..]) == (Value(base[8..]) + i) % U64
  {
    assert now[..8] == now[..j + 1][..8] == base[..8];
    var mid := base[8..j + 1];
    assert now[8..j + 1] == now[..j + 1][8..] == mid;
    assert now[8..] == mid + now[j + 1..] && base[8..] == mid + base[j + 1..];
    ValueConcat(mid, now[j + 1..]);
    ValueConcat(mid, base[j + 1..]);
    ValueBound(now[8..]);
    EightBytes();
    var m := Value(mid) * Weight(15 - j);
    assert Value(now[8..]) == m + Value(now[j + 1..]) && Value(base[8..]) == m + Value(base[j + 1..]);
    if carry != 0 {
      assert mid == [] && m == 0 && Weight(15 - j) == U64;
    }
    WrappedSum(Value(now[8..]), carry, Value(base[8..]) + i, if carry != 0 then U64 else Weight(15 - j));
  }

  /**
   * The low eight bytes become their sum with `i` modulo 2^64, the high eight
   * stay: what the in-place carry loop computes.
   */
  method AddLow(candidate: array<nat>, i: nat)
    requires candidate.Length == 16 && IsBytes(candidate[..])
    modifies candidate
    ensures IsBytes(candidate[..]) && candidate[..8] == old(candidate[..8])
    ensures Value(candidate[8..]) == (Value(old(candidate[8..])) + i) % U64
  {
    var carry: nat, j: int := i, 15;
    ghost var base := candidate[..];
    assert base[16..] == [];
    while 8 <= j && 0 < carry
      invariant 7 <= j <= 15 && IsBytes(candidate[..])
      invariant candidate[..][..j + 1] == base[..j + 1]
      invariant Value(candidate[..][j + 1..]) + carry * Weight(15 - j) == Value(base[j + 1..]) + i
    {
      ghost var was := candidate[..];
      assert was[j] == was[..j + 1][j] == base[j];
      var sum := candidate[j] + carry % 256;
      candidate[j] := sum % 256;
      ByteDone(base, was, candidate[..], j, carry, i);
      carry := carry / 256 + sum / 256;
      j := j - 1;
      assert candidate[..][..j + 1] == was[..j + 1] == base[..j + 1];
    }
    SumComplete(base, candidate[..], j, carry, i);
    assert candidate[..8] == candidate[..][..8] && candidate[8..] == candidate[..][8..];
  }

  // ----- The walk ----------------------------------------------------------------

  const LIMIT := 0x1000_0000_0000_0000

  /** The i-th candidate: the pool address with `i` added to its low 64 bits. */
  function Candidate6(base: nat, i: nat): nat {
    base - base % U64 + (base + i) % U64
  }

  function Search6(used: set<nat>, pool: Prefix, i: nat): Option<nat>
    decreases LIMIT - i
  {
    if LIMIT <= i || !Contains(pool, Addr(V6, Candidate6(pool.value, i))) then None
    else if Candidate6(pool.value, i) !in used then Some(Candidate6(pool.value, i))
    else Search6(used, pool, i + 1)
  }

  function Pick6(used: set<nat>, pool: Prefix): Allocation {
    if pool.family != V6 then WrongFamily
    else match Search6(used, pool, 2)
      case Some(v) => Found(Addr(V6, v))
      case None => PoolExhausted
  }

  lemma CandidateValue(base: seq<nat>, now: seq<nat>, i: nat)
    requires |base| == |now| == 16 && IsBytes(base) && now[..8] == base[..8]
    requires Value(now[8..]) == (Value(base[8..]) + i) % U64
    ensures Value(now) == Candidate6(Value(base), i)
  {
    assert base == base[..8] + base[8..] && now == now[..8] + now[8..];
    ValueConcat(base[..8], base[8..]);
    ValueConcat(now[..8], now[8..]);
    ValueBound(base[8..]);
    EightBytes();
    SplitValue(Value(base), Value(base[..8]), Value(base[8..]), Value(now[8..]), i);
  }

  lemma SplitValue(base: nat, hi: nat, lo: nat, sum: nat, i: nat)
    requires base == hi * U64 + lo && lo < U64 && sum == (lo + i) % U64
    ensures hi * U64 + sum == Candidate6(base, i)
  {
    assert base % U64 == lo;
    assert (base + i) % U64 == (lo + i) % U64 by {
      var q := (lo + i) / U64;
      assert base + i == (hi + q) * U64 + sum;
    }
  }

  method MakeCandidate(poolBytes: seq<nat>, i: nat) returns (value: nat)
    requires |poolBytes| == 16 && IsBytes(poolBytes)
    ensures value == Candidate6(Value(poolBytes), i)
  {
    var candidate := new nat[16](n requires 0 <= n < 16 => poolBytes[n]);
    assert candidate[..] == poolBytes;
    assert candidate[..8] == poolBytes[..8] && candidate[8..] == poolBytes[8..];
    AddLow(candidate, i);
    CandidateValue(poolBytes, candidate[..], i);
    value := Value(candidate[..]);
  }

  lemma PickedInColumns(rows: seq<seq<nat>>, pool: Prefix)
    ensures MaskedPool6(pool) ==>
              match Pick6(UsedValues(rows, 16), pool)
              case Found(a) => && a.family == V6 && Contains(pool, a) && !Taken(rows, 16, a.value)
                               && exists n :: 2 <= n < LIMIT && a.value == Candidate6(pool.value, n)
                                              && forall j | 2 <= j < n :: Taken(rows, 16, Candidate6(pool.value, j))
              case PoolExhausted => forall n | 2 <= n < LIMIT && InPool6(pool, n) :: Taken(rows, 16, Candidate6(pool.value, n))
              case _ => false
  {
    if MaskedPool6(pool) {
      var used := UsedValues(rows, 16);
      Pick6FromMaskedPool(used, pool);
      forall v ensures v in used <==> Taken(rows, 16, v) {
      }
      if Pick6(used, pool).Found? {
        var n :| 2 <= n < LIMIT && Pick6(used, pool).addr.value == Candidate6(pool.value, n)
                 && forall j | 2 <= j < n :: Candidate6(pool.value, j) in used;
        assert forall j | 2 <= j < n :: Taken(rows, 16, Candidate6(pool.value, j));
      }
    }
  }

  /** `tried` counts the candidates looked at: never more than one past the used addresses. */
  method AllocateIPv6(rows: seq<seq<nat>>, poolBytes: seq<nat>, pool: Prefix) returns (r: Allocation, tried: nat)
    requires pool.family == V6 ==> |poolBytes| == 16 && IsBytes(poolBytes) && Value(poolBytes) == pool.value
    ensures r == Pick6(UsedValues(rows, 16), pool)
    ensures tried <= |UsedValues(rows, 16)| + 1
    ensures r == WrongFamily <==> pool.family != V6
    ensures r != TooNarrow
    ensures MaskedPool6(pool) && r.Found? ==>
              && r.addr.family == V6 && Contains(pool, r.addr) && !Taken(rows, 16, r.addr.value)
              && exists n :: 2 <= n < LIMIT && r.addr.value == Candidate6(pool.value, n)
                             && forall j | 2 <= j < n :: Taken(rows, 16, Candidate6(pool.value, j))
    ensures MaskedPool6(pool) && r == PoolExhausted ==>
              forall n | 2 <= n < LIMIT && InPool6(pool, n) :: Taken(rows, 16, Candidate6(pool.value, n))
  {
    PickedInColumns(rows, pool);
    if pool.family != V6 {
      return WrongFamily, 0;
    }
    var used := CollectUsed(rows, 16);
    var i := 2;
    tried := 0;
    while i < LIMIT
      invariant i <= LIMIT && tried == i - 2
      invariant Search6(used, pool, i) == Search6(used, pool, 2)
      invariant forall j | 2 <= j < i :: Candidate6(pool.value, j) in used
    {
      TriedAreUsed(used, pool.value, i);
      var value := MakeCandidate(poolBytes, i);
      tried := tried + 1;
      if !Contains(pool, Addr(V6, value)) {
        return PoolExhausted, tried;
      }
      if value !in used {
        return Found(Addr(V6, value)), tried;
      }
      i := i + 1;
    }
    TriedAreUsed(used, pool.value, i);
    r := PoolExhausted;
  }

  lemma CandidatesDiffer(base: nat, i: nat, j: nat)
    requires i < j <= LIMIT
    ensures Candidate6(base, i) != Candidate6(base, j)
  {
  }

  /** Distinct candidates that are all used: there are no more of them than used addresses. */
  lemma {:induction false} TriedAreUsed(used: set<nat>, base: nat, i: nat)
    requires 2 <= i <= LIMIT && forall j | 2 <= j < i :: Candidate6(base, j) in used
    ensures i - 2 <= |used|
  {
    if i != 2 {
      var last := Candidate6(base, i - 1);
      forall j | 2 <= j < i - 1 ensures Candidate6(base, j) in used - {last} {
        CandidatesDiffer(base, j, i - 1);
      }
      TriedAreUsed(used - {last}, base, i - 1);
    }
  }

  // ----- Where containment fails ----------------------------------------------------

  lemma HalfOfHigh(hi: nat, lo: nat, n: nat)
    requires n != 0
    ensures (hi * Pow2(n) + lo) / 2 == hi * Pow2(n - 1) + lo / 2
    ensures (hi * Pow2(n) + lo) % 2 == lo % 2
  {
    assert hi * Pow2(n) == 2 * (hi * Pow2(n - 1));
  }

  /** Dropping at least `n` bits forgets anything below 2^n. */
  lemma {:induction false} HighBitsOnly(hi: nat, a: nat, b: nat, n: nat, k: nat)
    requires n <= k && a < Pow2(n) && b < Pow2(n)
    ensures DropBits(hi * Pow2(n) + a, k) == DropBits(hi * Pow2(n) + b, k)
  {
    if n != 0 {
      HalfOfHigh(hi, a, n);
      HalfOfHigh(hi, b, n);
      HighBitsOnly(hi, a / 2, b / 2, n - 1, k - 1);
    }
  }

  lemma {:induction false} LowPartMasked(hi: nat, lo: nat, n: nat, k: nat)
    requires k <= n && lo < Pow2(n) && ClearBits(hi * Pow2(n) + lo, k) == hi * Pow2(n) + lo
    ensures ClearBits(lo, k) == lo
  {
    if k != 0 {
      HalfOfHigh(hi, lo, n);
      LowPartMasked(hi, lo / 2, n - 1, k - 1);
    }
  }

  lemma {:induction false} BelowMasked(base: nat, c: nat, k: nat)
    requires ClearBits(base, k) == base && c < base
    ensures DropBits(c, k) < DropBits(base, k)
  {
    if k != 0 {
      BelowMasked(base / 2, c / 2, k - 1);
    }
  }

  predicate MaskedPool6(pool: Prefix) {
    pool.family == V6 && pool.bits <= 128 && ClearBits(pool.value, 128 - pool.bits) == pool.value
  }

  /** Offset `i` exists in the pool: only prefixes longer than /64 have an end. */
  predicate InPool6(pool: Prefix, i: nat)
    requires pool.bits <= 128
  {
    128 - pool.bits < 64 ==> i < Pow2(128 - pool.bits)
  }

  /** A carry out of the low part lands below the masked base, so outside its network. */
  lemma WrapsOut(hi: nat, lo: nat, i: nat, k: nat)
    requires k < 64 && lo < U64 <= lo + i && i < LIMIT
    requires var base := hi * U64 + lo; ClearBits(base, k) == base
    ensures Pow2(k) <= i
    ensures DropBits(hi * U64 + (lo + i) % U64, k) != DropBits(hi * U64 + lo, k)
  {
    EightBytes();
    LowPartMasked(hi, lo, 64, k);
    MaskedRoom(lo, k, 64);
    assert (lo + i) % U64 == lo + i - U64 < lo;
    BelowMasked(hi * U64 + lo, hi * U64 + (lo + i) % U64, k);
  }

  lemma SameNetwork(hi: nat, lo: nat, i: nat, k: nat)
    requires k <= 128 && lo < U64 && i < LIMIT
    requires var base := hi * U64 + lo; ClearBits(base, k) == base
    ensures DropBits(hi * U64 + (lo + i) % U64, k) == DropBits(hi * U64 + lo, k) <==> 64 <= k || i < Pow2(k)
  {
    EightBytes();
    if 64 <= k {
      HighBitsOnly(hi, lo, (lo + i) % U64, 64, k);
    } else if lo + i < U64 {
      OffsetInside(hi * U64 + lo, i, k);
      assert hi * U64 + (lo + i) % U64 == hi * U64 + lo + i;
    } else {
      WrapsOut(hi, lo, i, k);
    }
  }

  /** The bound check fails exactly past the end of the pool. */
  lemma ContainmentFailsPastTheEnd(pool: Prefix, i: nat)
    requires MaskedPool6(pool) && i < LIMIT
    ensures Contains(pool, Addr(V6, Candidate6(pool.value, i))) <==> InPool6(pool, i)
  {
    var hi, lo := pool.value / U64, pool.value % U64;
    SplitValue(pool.value, hi, lo, (lo + i) % U64, i);
    SameNetwork(hi, lo, i, 128 - pool.bits);
    assert HostBits(pool) == 128 - pool.bits;
  }

  lemma {:induction false} Search6IsLowest(used: set<nat>, pool: Prefix, i: nat)
    requires MaskedPool6(pool)
    ensures match Search6(used, pool, i)
            case Some(v) => exists n :: i <= n < LIMIT && InPool6(pool, n) && v == Candidate6(pool.value, n) && v !in used
                                        && forall j | i <= j < n :: Candidate6(pool.value, j) in used
            case None => forall j | i <= j < LIMIT && InPool6(pool, j) :: Candidate6(pool.value, j) in used
    decreases LIMIT - i
  {
    if i < LIMIT {
      ContainmentFailsPastTheEnd(pool, i);
      if Candidate6(pool.value, i) in used && InPool6(pool, i) {
        Search6IsLowest(used, pool, i + 1);
      }
    }
  }

  /** The lowest free offset from 2 is found; exhaustion is reported exactly when none is left. */
  lemma Pick6FromMaskedPool(used: set<nat>, pool: Prefix)
    requires MaskedPool6(pool)
    ensures match Pick6(used, pool)
            case Found(a) => && a.family == V6 && a.value !in used && Contains(pool, a)
                             && exists n :: 2 <= n < LIMIT && a.value == Candidate6(pool.value, n)
                                            && forall j | 2 <= j < n :: Candidate6(pool.value, j) in used
            case PoolExhausted => forall n | 2 <= n < LIMIT && InPool6(pool, n) :: Candidate6(pool.value, n) in used
            case _ => false
  {
    Search6IsLowest(used, pool, 2);
    match Search6(used, pool, 2)
    case Some(v) =>
      var n :| 2 <= n < LIMIT && InPool6(pool, n) && v == Candidate6(pool.value, n) && v !in used
               && forall j | 2 <= j < n :: Candidate6(pool.value, j) in used;
      ContainmentFailsPastTheEnd(pool, n);
    case None =>
  }
}
