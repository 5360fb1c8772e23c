/**
 * The controller's half of the policy chain: which policy governs a device,
 * what the phone is told to route, and what the gateway is told to permit.
 */
module Controller {
  import opened Net
  import opened Firewall
  import Order
  import opened Seqs

  datatype VirtualHost = VirtualHost(virtualIp: Addr, realIp: Addr)

  /** One policy_rules row; `dst` is None when the stored bytes are no address. */
  datatype RuleRow = RuleRow(
    action: string, dst: Option<Addr>, bits: nat, protocol: string, portMin: nat, portMax: nat,
    sourceDevice: Option<string>, sourceGroup: Option<string>)

  /** A policy with the rows joined to it. Unparseable text is None. */
  datatype Policy = Policy(
    tenant: string, enabled: bool, deleted: bool,
    allowedIps: seq<Option<Prefix>>, resolutions: seq<Addr>, virtualHosts: seq<VirtualHost>,
    dnsServers: seq<Option<Addr>>, rules: seq<RuleRow>, sourceNat: bool)

  datatype Group = Group(tenant: string, policy: Option<string>, deleted: bool)

  datatype Device = Device(
    id: string, tenant: string, policy: Option<string>, group: Option<string>, memberOf: set<string>,
    publicKey: string, psk: string, ipv4: Option<Addr>, ipv6: Option<Addr>)

  datatype Tables = Tables(groups: map<string, Group>, policies: map<string, Policy>)

  // ----- Which policy governs a device -------------------------------------

  /** LEFT JOIN device_groups: the device's live group in its own tenant. */
  function LiveGroup(t: Tables, d: Device): Option<Group> {
    if d.group.Some? && d.group.value in t.groups
       && t.groups[d.group.value].tenant == d.tenant && !t.groups[d.group.value].deleted
    then Some(t.groups[d.group.value]) else None
  }

  /** COALESCE(d.policy_id, g.policy_id) joined to a live, enabled policy of the tenant. */
  function EffectivePolicy(t: Tables, d: Device): Option<Policy> {
    var id := if d.policy.Some? then d.policy
              else if LiveGroup(t, d).Some? then LiveGroup(t, d).value.policy else None;
    if id.Some? && id.value in t.policies && t.policies[id.value].tenant == d.tenant
       && !t.policies[id.value].deleted && t.policies[id.value].enabled
    then Some(t.policies[id.value]) else None
  }

  // ----- Destination lists --------------------------------------------------

  function Dedup<T(==)>(s: seq<T>): seq<T> {
    if s == [] then [] else
      var init, last := s[..|s| - 1], s[|s| - 1];
      Dedup(init) + if last in init then [] else [last]
  }

  lemma {:induction false} DedupKeepsOneOfEach<T>(s: seq<T>)
    ensures forall x :: x in Dedup(s) <==> x in s
    ensures forall i, j | 0 <= i < j < |Dedup(s)| :: Dedup(s)[i] != Dedup(s)[j]
  {
    if s != [] {
      DedupKeepsOneOfEach(s[..|s| - 1]);
      assert s == s[..|s| - 1] + [s[|s| - 1]];
    }
  }

  lemma DedupStep<T>(was: seq<T>, i: nat)
    requires i < |was|
    ensures Dedup(was[..i + 1]) == if was[i] in was[..i] then Dedup(was[..i]) else Dedup(was[..i]) + [was[i]]
    ensures forall x :: x in was[..i + 1] <==> x in was[..i] || x == was[i]
  {
    assert was[..i + 1][..i] == was[..i] && was[..i + 1] == was[..i] + [was[i]];
  }

  /** Repeats removed in place; the first `n` elements are the answer. */
  method DedupInPlace<T(==)>(a: array<T>) returns (n: nat)
    modifies a
    ensures n <= a.Length && a[..n] == Dedup(old(a[..]))
  {
    var seen: set<T> := {};
    n := 0;
    ghost var was := a[..];
    for i := 0 to a.Length
      invariant n <= i && forall j | i <= j < a.Length :: a[j] == was[j]
      invariant a[..n] == Dedup(was[..i])
      invariant forall x :: x in seen <==> x in was[..i]
    {
      DedupStep(was, i);
      if a[i] !in seen {
        seen := seen + {a[i]};
        ghost var kept := a[..n];
        a[n] := a[i];
        assert a[..n + 1] == kept + [was[i]];
        n := n + 1;
      }
    }
    assert was[..a.Length] == was;
  }

  function Normalize(c: Option<Prefix>): Option<Prefix> {
    if c.Some? then Some(Masked(c.value)) else None
  }

  function Routes(addrs: seq<Addr>): seq<Option<Prefix>> {
    seq(|addrs|, i requires 0 <= i < |addrs| => Some(HostRoute(addrs[i])))
  }

  function VirtualRoutes(hosts: seq<VirtualHost>): seq<Option<Prefix>> {
    seq(|hosts|, i requires 0 <= i < |hosts| => Some(Prefix(hosts[i].virtualIp.family, hosts[i].virtualIp.value, 32)))
  }

  function RealRoutes(hosts: seq<VirtualHost>): seq<Option<Prefix>> {
    seq(|hosts|, i requires 0 <= i < |hosts| => Some(Prefix(hosts[i].realIp.family, hosts[i].realIp.value, 32)))
  }

  /** The three-way UNION: static CIDRs, resolved hostnames, virtual hosts. */
  function UnionRows(p: Policy): seq<Option<Prefix>> {
    p.allowedIps + Routes(p.resolutions) + VirtualRoutes(p.virtualHosts)
  }

  function NormalizeAll(s: seq<Option<Prefix>>): seq<Option<Prefix>> {
    seq(|s|, i requires 0 <= i < |s| => Normalize(s[i]))
  }

  function AllowedIps(p: Policy): seq<Option<Prefix>> {
    Dedup(NormalizeAll(UnionRows(p)))
  }

  /** Every parseable resolver is folded in as a host route, once. */
  function WithDns(servers: seq<Option<Addr>>, allowed: seq<Option<Prefix>>): seq<Option<Prefix>> {
    if servers == [] then allowed
    else if servers[0].None? || Some(HostRoute(servers[0].value)) in allowed then WithDns(servers[1..], allowed)
    else WithDns(servers[1..], allowed + [Some(HostRoute(servers[0].value))])
  }

  method DnsFor(servers: seq<Option<Addr>>, allowed: seq<Option<Prefix>>) returns (out: seq<Option<Prefix>>)
    ensures out == WithDns(servers, allowed)
  {
    out := allowed;
    for i := 0 to |servers|
      invariant WithDns(servers[i..], out) == WithDns(servers, allowed)
    {
      assert servers[i..][0] == servers[i] && servers[i..][1..] == servers[i + 1..];
      if servers[i].None? {
        continue;
      }
      if Some(HostRoute(servers[i].value)) !in out {
        out := out + [Some(HostRoute(servers[i].value))];
      }
    }
  }

  /** What a governed phone is told to route into the tunnel. */
  function PhoneRoutes(p: Policy): seq<Option<Prefix>> {
    WithDns(p.dnsServers, AllowedIps(p))
  }

  // ----- L4 rules -----------------------------------------------------------

  function Field(action: string): nat {
    if action == "drop" then 1 else if action == "reject" then 2 else if action == "accept" then 3 else 0
  }

  /** ORDER BY FIELD(action, 'drop', 'reject', 'accept'), dst_bits DESC */
  predicate RowLe(a: RuleRow, b: RuleRow) {
    Field(a.action) < Field(b.action) || (Field(a.action) == Field(b.action) && a.bits >= b.bits)
  }

  predicate Targets(t: Tables, d: Device, r: RuleRow) {
    || (r.sourceDevice.None? && r.sourceGroup.None?)
    || r.sourceDevice == Some(d.id)
    || (LiveGroup(t, d).Some? && r.sourceGroup == d.group)
    || (r.sourceGroup.Some? && r.sourceGroup.value in d.memberOf)
  }

  function SelectRows(t: Tables, d: Device, rows: seq<RuleRow>): seq<RuleRow> {
    if rows == [] then []
    else (if Targets(t, d, rows[0]) then [rows[0]] else []) + SelectRows(t, d, rows[1..])
  }

  predicate HasPorts(r: RuleRow) {
    (r.protocol == "tcp" || r.protocol == "udp") && (r.portMin != 0 || r.portMax != 0)
  }

  /** The row on the wire: a one-sided port range names a single port. */
  function ToWire(r: RuleRow, dst: Prefix): Rule {
    if !HasPorts(r) then Rule(r.action, Some(dst), r.protocol, 0, 0)
    else
      var hi := if r.portMax == 0 then r.portMin else r.portMax;
      Rule(r.action, Some(dst), r.protocol, if r.portMin == 0 then hi else r.portMin, hi)
  }

  function RowDst(r: RuleRow): Option<Prefix> {
    if r.dst.Some? && r.bits <= Width(r.dst.value.family)
    then Some(Masked(Prefix(r.dst.value.family, r.dst.value.value, r.bits))) else None
  }

  /** Malformed rows are skipped, the rest keep their order. */
  function WireRules(rows: seq<RuleRow>): seq<Rule> {
    if rows == [] then []
    else (if RowDst(rows[0]).Some? then [ToWire(rows[0], RowDst(rows[0]).value)] else []) + WireRules(rows[1..])
  }

  /** One rule as sent: a lone port bound stands for both. */
  method WireRule(r: RuleRow) returns (j: Rule)
    requires RowDst(r).Some?
    ensures j == ToWire(r, RowDst(r).value)
    ensures j.action == r.action && j.protocol == r.protocol && j.dst == RowDst(r)
    ensures r.protocol != "tcp" && r.protocol != "udp" ==> j.portMin == j.portMax == 0
    ensures r.protocol == "tcp" || r.protocol == "udp" ==>
              && (r.portMin != 0 && r.portMax != 0 ==> j.portMin == r.portMin && j.portMax == r.portMax)
              && (r.portMin == 0 || r.portMax == 0 ==> j.portMin == j.portMax == r.portMin + r.portMax)
  {
    j := Rule(r.action, RowDst(r), r.protocol, 0, 0);
    if HasPorts(r) {
      j := j.(portMin := r.portMin, portMax := r.portMax);
      if j.portMax == 0 {
        j := j.(portMax := j.portMin);
      }
      if j.portMin == 0 {
        j := j.(portMin := j.portMax);
      }
    }
  }

  method EffectiveRules(rows: seq<RuleRow>) returns (out: seq<Rule>)
    ensures out == WireRules(rows)
  {
    out := [];
    for i := 0 to |rows|
      invariant out + WireRules(rows[i..]) == WireRules(rows)
    {
      Suffix(rows, i);
      if RowDst(rows[i]).None? {
        assert WireRules(rows[i..]) == WireRules(rows[i + 1..]);
        continue;
      }
      var j := WireRule(rows[i]);
      Assoc(out, [j], WireRules(rows[i + 1..]));
      out := out + [j];
    }
  }

  // ----- The peer on the wire -----------------------------------------------

  function Rewrites(hosts: seq<VirtualHost>): seq<Rewrite> {
    seq(|hosts|, i requires 0 <= i < |hosts| => Rewrite(hosts[i].virtualIp, hosts[i].realIp))
  }

  function Parsed(cidrs: seq<Option<Prefix>>): seq<Prefix> {
    if cidrs == [] then []
    else (if cidrs[0].Some? then [cidrs[0].value] else []) + Parsed(cidrs[1..])
  }

  /** The gateway's destinations: the phone's routes plus every real address. */
  function GatewayCidrs(p: Policy): seq<Option<Prefix>> {
    PhoneRoutes(p) + RealRoutes(p.virtualHosts)
  }

  /** One /node/peers entry; `rows` is the query's answer for this device. */
  function NodePeer(t: Tables, d: Device, rows: seq<RuleRow>): Peer {
    match EffectivePolicy(t, d)
    case None => Peer(d.id, d.publicKey, d.psk, d.ipv4, d.ipv6, false, [], [], [], [])
    case Some(p) =>
      Peer(d.id, d.publicKey, d.psk, d.ipv4, d.ipv6, true, GatewayCidrs(p), WireRules(rows),
           if p.sourceNat then Parsed(GatewayCidrs(p)) else [], Rewrites(p.virtualHosts))
  }

  /** `rows` answers the rule query: the selected rows, in the ORDER BY order, ties anyhow. */
  ghost predicate AnswersRuleQuery(t: Tables, d: Device, rows: seq<RuleRow>) {
    && Order.Sorted(RowLe, rows)
    && multiset(rows) == match EffectivePolicy(t, d)
                         case None => multiset{}
                         case Some(p) => multiset(SelectRows(t, d, p.rules))
  }

  // ----- Virtual hosts --------------------------------------------------------

  const VIRTUAL_RANGE := Prefix(V4, 10 * 0x1000000 + 79 * 0x10000, 16)

  /** 10.79.0.0 to 10.79.255.255. */
  predicate InVirtualRange(a: Addr) {
    a.family == V4 && 0x0A4F_0000 <= a.value <= 0x0A4F_FFFF
  }

  lemma DropFour(v: nat)
    ensures DropBits(v, 4) == v / 16
  {
    var a := v / 2;
    var b := a / 2;
    var c := b / 2;
    assert DropBits(c / 2, 0) == c / 2;
    assert DropBits(c, 1) == DropBits(c / 2, 0);
    assert DropBits(b, 2) == DropBits(c, 1);
    assert DropBits(a, 3) == DropBits(b, 2);
    assert DropBits(v, 4) == DropBits(a, 3);
  }

  lemma DropEight(v: nat)
    ensures DropBits(v, 8) == v / 256
  {
    DropMore(v, 4, 4);
    DropFour(v);
    DropFour(v / 16);
  }

  lemma {:induction false} DropMore(v: nat, j: nat, k: nat)
    ensures DropBits(v, j + k) == DropBits(DropBits(v, j), k)
  {
    if j != 0 {
      DropMore(v / 2, j - 1, k);
    }
  }

  lemma RangeIsVirtual(a: Addr)
    ensures Contains(VIRTUAL_RANGE, a) <==> InVirtualRange(a)
  {
    assert HostBits(VIRTUAL_RANGE) == 8 + 8;
    DropMore(a.value, 8, 8);
    DropMore(VIRTUAL_RANGE.value, 8, 8);
    DropEight(a.value);
    DropEight(a.value / 256);
    DropEight(VIRTUAL_RANGE.value);
    DropEight(VIRTUAL_RANGE.value / 256);
  }

  predicate ValidHost(h: VirtualHost) {
    Contains(VIRTUAL_RANGE, h.virtualIp) && !Contains(VIRTUAL_RANGE, h.realIp)
  }

  /** The policy_virtual_hosts rows of one policy. */
  class VirtualHostTable {
    var hosts: seq<VirtualHost>

    predicate Valid()
      reads this
    {
      forall i | 0 <= i < |hosts| :: ValidHost(hosts[i])
    }

    constructor ()
      ensures Valid() && hosts == []
    {
      hosts := [];
    }

    /** Refuses unparseable text, a virtual address outside the range and a real one inside it. */
    method Add(virtualIp: Option<Addr>, realIp: Option<Addr>) returns (ok: bool)
      requires Valid()
      modifies this
      ensures Valid()
      ensures ok <==> virtualIp.Some? && realIp.Some? && ValidHost(VirtualHost(virtualIp.value, realIp.value))
      ensures ok <==> virtualIp.Some? && realIp.Some? && InVirtualRange(virtualIp.value) && !InVirtualRange(realIp.value)
      ensures hosts == if ok then old(hosts) + [VirtualHost(virtualIp.value, realIp.value)] else old(hosts)
    {
      ok := false;
      if virtualIp.None? || realIp.None? {
        return;
      }
      RangeIsVirtual(virtualIp.value);
      RangeIsVirtual(realIp.value);
      if !Contains(VIRTUAL_RANGE, virtualIp.value) {
        return;
      }
      if Contains(VIRTUAL_RANGE, realIp.value) {
        return;
      }
      hosts := hosts + [VirtualHost(virtualIp.value, realIp.value)];
      ok := true;
    }
  }
}
