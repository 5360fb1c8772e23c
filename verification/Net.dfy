/** Addresses and prefixes as the controller and the gateway use them. */
module Net {

  datatype Option<+T> = None | Some(value: T)

  datatype Family = V4 | V6

  datatype Addr = Addr(family: Family, value: nat)

  /** A prefix as parsed: host bits are kept until `Masked` clears them. */
  datatype Prefix = Prefix(family: Family, value: nat, bits: nat)

  function Width(f: Family): nat {
    if f == V4 then 32 else 128
  }

  function Pow2(n: nat): (p: nat)
    ensures 0 < p
  {
    if n == 0 then 1 else 2 * Pow2(n - 1)
  }

  /** The network part: `v` without its `k` low bits. */
  function DropBits(v: nat, k: nat): nat {
    if k == 0 then v else DropBits(v / 2, k - 1)
  }

  /** `v` with its `k` low bits zeroed. */
  function ClearBits(v: nat, k: nat): nat {
    if k == 0 then v else 2 * ClearBits(v / 2, k - 1)
  }

  function HostBits(p: Prefix): nat {
    if p.bits <= Width(p.family) then Width(p.family) - p.bits else 0
  }

  predicate Contains(p: Prefix, a: Addr) {
    && p.family == a.family
    && p.bits <= Width(p.family)
    && DropBits(a.value, HostBits(p)) == DropBits(p.value, HostBits(p))
  }

  function Masked(p: Prefix): Prefix {
    p.(value := ClearBits(p.value, HostBits(p)))
  }

  /** The /32 or /128 of a single address. */
  function HostRoute(a: Addr): Prefix {
    Prefix(a.family, a.value, Width(a.family))
  }

  lemma {:induction false} ClearKeepsNetwork(v: nat, k: nat)
    ensures DropBits(ClearBits(v, k), k) == DropBits(v, k)
    ensures ClearBits(ClearBits(v, k), k) == ClearBits(v, k)
  {
    if k != 0 {
      ClearKeepsNetwork(v / 2, k - 1);
    }
  }

  /** Masking changes the spelling of a prefix, never the addresses in it. */
  lemma MaskedSameAddresses(p: Prefix, a: Addr)
    ensures Contains(Masked(p), a) <==> Contains(p, a)
    ensures Masked(Masked(p)) == Masked(p)
  {
    ClearKeepsNetwork(p.value, HostBits(p));
  }

  lemma HostRouteIsOneAddress(a: Addr, b: Addr)
    ensures Contains(HostRoute(a), b) <==> a == b
  {
    assert HostBits(HostRoute(a)) == 0;
  }

  /** Counting up from a masked network address stays inside exactly below 2^k. */
  lemma {:induction false} OffsetInside(base: nat, i: nat, k: nat)
    requires ClearBits(base, k) == base
    ensures DropBits(base + i, k) == DropBits(base, k) <==> i < Pow2(k)
  {
    if k != 0 {
      OffsetInside(base / 2, i / 2, k - 1);
      assert (base + i) / 2 == base / 2 + i / 2;
    }
  }
}
