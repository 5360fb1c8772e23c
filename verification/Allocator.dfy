/** Lowest-free tunnel address allocation, IPv4. */
module Allocator {
  import opened Bytes
  import opened Net

  datatype Allocation = Found(addr: Addr) | PoolExhausted | TooNarrow | WrongFamily

  const U32 := 0x1_0000_0000

  /** uint32 arithmetic: an unmasked pool near the top of the space wraps. */
  function Candidate4(start: nat, i: nat): nat {
    (start + i) % U32
  }

  /** The last offset is the broadcast address; for a /0 the uint32 host count wraps to 0. */
  function Bound4(bits: nat): nat
    requires bits <= 30
  {
    (Pow2(32 - bits) % U32 + U32 - 1) % U32
  }

  function Search4(used: set<nat>, start: nat, i: nat, bound: nat): Option<nat>
    decreases bound - i
  {
    if bound <= i then None
    else if Candidate4(start, i) !in used then Some(Candidate4(start, i))
    else Search4(used, start, i + 1, bound)
  }

  function Pick4(used: set<nat>, pool: Prefix): Allocation {
    if pool.family != V4 then WrongFamily
    else if 30 < pool.bits then TooNarrow
    else match Search4(used, pool.value, 2, Bound4(pool.bits))
      case Some(v) => Found(Addr(V4, v))
      case None => PoolExhausted
  }

  /** The lowest free offset is found, and nothing is found only when none is free. */
  lemma {:induction false} Search4IsLowest(used: set<nat>, start: nat, i: nat, bound: nat)
    ensures match Search4(used, start, i, bound)
            case Some(v) => exists k :: i <= k < bound && v == Candidate4(start, k) && v !in used
                                        && forall j | i <= j < k :: Candidate4(start, j) in used
            case None => forall j | i <= j < bound :: Candidate4(start, j) in used
    decreases bound - i
  {
    if i < bound && Candidate4(start, i) in used {
      Search4IsLowest(used, start, i + 1, bound);
    }
  }

  /** The addresses in use: rows of the right width only. */
  function UsedValues(rows: seq<seq<nat>>, width: nat): set<nat> {
    set r | r in rows && |r| == width :: Value(r)
  }

  /** Some row of the right width holds the address. */
  predicate Taken(rows: seq<seq<nat>>, width: nat, v: nat) {
    exists r :: r in rows && |r| == width && Value(r) == v
  }

  method CollectUsed(rows: seq<seq<nat>>, width: nat) returns (used: set<nat>)
    ensures used == UsedValues(rows, width)
  {
    used := {};
    for n := 0 to |rows|
      invariant used == UsedValues(rows[..n], width)
    {
      assert rows[..n + 1] == rows[..n] + [rows[n]];
      if |rows[n]| == width {
        used := used + {Value(rows[n])};
      }
    }
    assert rows[..|rows|] == rows;
  }

  method AllocateIPv4(rows: seq<seq<nat>>, pool: Prefix) returns (r: Allocation)
    ensures r == Pick4(UsedValues(rows, 4), pool)
    ensures r == WrongFamily <==> pool.family != V4
    ensures r == TooNarrow <==> pool.family == V4 && 30 < pool.bits
    ensures MaskedPool4(pool) && r.Found? ==> HostOf(pool, r.addr) && !Taken(rows, 4, r.addr.value)
                                              && forall v: nat | pool.value + 2 <= v < r.addr.value :: Taken(rows, 4, v)
    ensures MaskedPool4(pool) && r == PoolExhausted ==>
              forall v: nat | pool.value + 2 <= v < pool.value + Pow2(32 - pool.bits) - 1 :: Taken(rows, 4, v)
  {
    if MaskedPool4(pool) {
      Pick4FromMaskedPool(UsedValues(rows, 4), pool);
      forall v ensures v in UsedValues(rows, 4) <==> Taken(rows, 4, v) {
      }
    }
    if pool.family != V4 {
      return WrongFamily;
    }
    var used := CollectUsed(rows, 4);
    if 30 < pool.bits {
      return TooNarrow;
    }
    var bound := Bound4(pool.bits);
    var i := 2;
    while i < bound
      invariant Search4(used, pool.value, i, bound) == Search4(used, pool.value, 2, bound)
    {
      var candidate := Candidate4(pool.value, i);
      if candidate !in used {
        return Found(Addr(V4, candidate));
      }
      i := i + 1;
    }
    r := PoolExhausted;
  }

  lemma {:induction false} MaskedRoom(v: nat, k: nat, n: nat)
    requires ClearBits(v, k) == v && k <= n && v < Pow2(n)
    ensures v + Pow2(k) <= Pow2(n)
  {
    if k != 0 {
      MaskedRoom(v / 2, k - 1, n - 1);
    }
  }

  lemma {:induction false} PowMonotone(a: nat, b: nat)
    requires a <= b
    ensures Pow2(a) <= Pow2(b)
    decreases b
  {
    if a < b {
      PowMonotone(a, b - 1);
    }
  }

  lemma Pow32()
    ensures Pow2(32) == U32
  {
    assert Pow2(8) == 256;
    assert Pow2(16) == 65536;
    assert Pow2(24) == 16777216;
  }

  /** What `Pick4` may return from a pool given by its masked network address. */
  predicate HostOf(pool: Prefix, a: Addr) {
    && a.family == V4 && pool.bits <= 30 && Contains(pool, a)
    && pool.value + 2 <= a.value < pool.value + Pow2(32 - pool.bits) - 1
  }

  predicate MaskedPool4(pool: Prefix) {
    pool.family == V4 && pool.bits <= 30 && pool.value < U32 && ClearBits(pool.value, 32 - pool.bits) == pool.value
  }

  lemma Bound4Value(bits: nat)
    requires bits <= 30
    ensures Bound4(bits) == Pow2(32 - bits) - 1 && 3 <= Bound4(bits)
  {
    Pow32();
    PowMonotone(2, 32 - bits);
    assert Pow2(2) == 4;
    if bits != 0 {
      PowMonotone(32 - bits, 31);
      assert Pow2(32) == 2 * Pow2(31);
    }
  }

  /** In a masked pool no offset wraps, so candidates are plain sums. */
  lemma MaskedPoolDoesNotWrap(pool: Prefix)
    requires MaskedPool4(pool)
    ensures Bound4(pool.bits) == Pow2(32 - pool.bits) - 1 && 3 <= Bound4(pool.bits)
    ensures forall i: nat | i < Pow2(32 - pool.bits) :: Candidate4(pool.value, i) == pool.value + i
  {
    Pow32();
    MaskedRoom(pool.value, 32 - pool.bits, 32);
    Bound4Value(pool.bits);
  }

  lemma FoundInPool(used: set<nat>, pool: Prefix, v: nat, k: nat)
    requires MaskedPool4(pool) && 2 <= k < Bound4(pool.bits) && v == Candidate4(pool.value, k) && v !in used
    requires forall j: nat | 2 <= j < k :: Candidate4(pool.value, j) in used
    ensures HostOf(pool, Addr(V4, v)) && forall w | pool.value + 2 <= w < v :: w in used
  {
    MaskedPoolDoesNotWrap(pool);
    OffsetInside(pool.value, k, 32 - pool.bits);
    forall w | pool.value + 2 <= w < v ensures w in used {
      assert Candidate4(pool.value, w - pool.value) in used;
    }
  }

  lemma NoneLeft(used: set<nat>, pool: Prefix)
    requires MaskedPool4(pool) && forall j | 2 <= j < Bound4(pool.bits) :: Candidate4(pool.value, j) in used
    ensures forall w | pool.value + 2 <= w < pool.value + Pow2(32 - pool.bits) - 1 :: w in used
  {
    MaskedPoolDoesNotWrap(pool);
    forall w | pool.value + 2 <= w < pool.value + Bound4(pool.bits) ensures w in used {
      assert Candidate4(pool.value, w - pool.value) in used;
    }
  }

  /** From a masked pool: inside it, not the network, gateway or broadcast address, and lowest. */
  lemma Pick4FromMaskedPool(used: set<nat>, pool: Prefix)
    requires MaskedPool4(pool)
    ensures match Pick4(used, pool)
            case Found(a) => && HostOf(pool, a) && a.value !in used
                             && forall v | pool.value + 2 <= v < a.value :: v in used
            case PoolExhausted => forall v | pool.value + 2 <= v < pool.value + Pow2(32 - pool.bits) - 1 :: v in used
            case _ => false
  {
    var bound := Bound4(pool.bits);
    Search4IsLowest(used, pool.value, 2, bound);
    match Search4(used, pool.value, 2, bound)
    case Some(v) =>
      var k: nat :| 2 <= k < bound && v == Candidate4(pool.value, k) && v !in used
                    && forall j | 2 <= j < k :: Candidate4(pool.value, j) in used;
      FoundInPool(used, pool, v, k);
    case None =>
      NoneLeft(used, pool);
  }
}
