/** From policy rows to packet verdicts: what the controller and the gateway promise together. */
module PolicyChain {
  import opened Net
  import opened Firewall
  import opened FirewallMeaning
  import opened FirewallIsolation
  import opened Controller
  import Order

  // ----- Rule order -----------------------------------------------------------

  lemma {:induction false} WireRulesRank(rows: seq<RuleRow>, k: nat)
    requires forall i | 0 <= i < |rows| :: k <= Field(rows[i].action)
    ensures forall i | 0 <= i < |WireRules(rows)| :: k <= Field(WireRules(rows)[i].action)
  {
    if rows != [] {
      WireRulesRank(rows[1..], k);
    }
  }

  /** The controller's ORDER BY puts every denial ahead of every accept. */
  lemma {:induction false} ControllerRulesDenyFirst(rows: seq<RuleRow>)
    requires Order.Sorted(RowLe, rows)
    ensures DenyFirst(WireRules(rows))
  {
    if rows != [] {
      ControllerRulesDenyFirst(rows[1..]);
      var t := WireRules(rows[1..]);
      if rows[0].action == "accept" {
        forall i | 0 <= i < |rows[1..]| ensures 3 <= Field(rows[1..][i].action) {
          assert RowLe(rows[0], rows[i + 1]);
        }
        WireRulesRank(rows[1..], 3);
      }
      if RowDst(rows[0]).Some? {
        var w := WireRules(rows);
        assert w[0].action == rows[0].action;
        assert forall j | 1 <= j < |w| :: w[j] == t[j - 1];
      }
    }
  }

  lemma RowLeIsTotal()
    ensures Order.TotalPreorder(RowLe)
  {
  }

  /** The rule query always has an answer. */
  lemma RuleQueryHasAnswer(t: Tables, d: Device) returns (rows: seq<RuleRow>)
    ensures AnswersRuleQuery(t, d, rows)
  {
    RowLeIsTotal();
    rows := [];
    match EffectivePolicy(t, d)
    case None =>
    case Some(p) =>
      rows := Order.Sort(RowLe, SelectRows(t, d, p.rules));
      Order.SortSorts(RowLe, SelectRows(t, d, p.rules));
  }

  /** In every answer drops come before rejects and rejects before accepts, and of one action the longer
      prefixes come first. */
  lemma AnswerOrder(t: Tables, d: Device, rows: seq<RuleRow>, i: nat, j: nat)
    requires AnswersRuleQuery(t, d, rows) && i < j < |rows|
    ensures rows[i].action == "accept" ==> rows[j].action != "drop" && rows[j].action != "reject"
    ensures rows[i].action == "reject" ==> rows[j].action != "drop"
    ensures rows[i].action == rows[j].action ==> rows[j].bits <= rows[i].bits
  {
    assert RowLe(rows[i], rows[j]);
  }

  /** What a rule row says about ports, before any normalisation. */
  predicate RowMatchesL4(r: RuleRow, pkt: Packet) {
    if r.protocol == "tcp" || r.protocol == "udp" then
      && pkt.proto == (if r.protocol == "tcp" then 6 else 17)
      && (if r.portMin == 0 && r.portMax == 0 then true
          else if r.portMax == 0 then pkt.dport == r.portMin
          else if r.portMin == 0 then pkt.dport == r.portMax
          else r.portMin <= pkt.dport <= r.portMax)
    else if r.protocol == "icmp" then pkt.src.family == V4 && pkt.proto == 1
    else if r.protocol == "icmpv6" then pkt.proto == 58
    else true
  }

  /** Port normalisation on the wire and the renderer's L4 match together mean the row. */
  lemma WireRuleMeansRow(r: RuleRow, dst: Prefix, pkt: Packet)
    ensures L4Matches(L4Match(ToWire(r, dst)), pkt) <==> RowMatchesL4(r, pkt)
  {
  }

  // ----- Which policy row judges a device, in columns --------------------------------

  /** The device's group, when that is an undeleted one of its own tenant. */
  predicate InLiveGroup(t: Tables, d: Device, g: string) {
    d.group == Some(g) && g in t.groups && t.groups[g].tenant == d.tenant && !t.groups[g].deleted
  }

  /** The device's own policy id wins; only a device without one has that of its live group. */
  ghost predicate Assigned(t: Tables, d: Device, id: string) {
    d.policy == Some(id) || (d.policy.None? && exists g :: InLiveGroup(t, d, g) && t.groups[g].policy == Some(id))
  }

  /** The assigned id names an enabled, undeleted policy of the device's tenant. */
  ghost predicate JudgedBy(t: Tables, d: Device, id: string) {
    && Assigned(t, d, id) && id in t.policies
    && t.policies[id].tenant == d.tenant && t.policies[id].enabled && !t.policies[id].deleted
  }

  lemma EffectivePolicyIsTheJudge(t: Tables, d: Device)
    ensures forall id | JudgedBy(t, d, id) :: EffectivePolicy(t, d) == Some(t.policies[id])
    ensures EffectivePolicy(t, d).Some? ==> exists id :: JudgedBy(t, d, id)
  {
    if EffectivePolicy(t, d).Some? {
      if d.policy.Some? {
        assert JudgedBy(t, d, d.policy.value);
      } else {
        assert InLiveGroup(t, d, d.group.value);
        assert JudgedBy(t, d, t.groups[d.group.value].policy.value);
      }
    }
  }

  // ----- What the phone is told -------------------------------------------------

  lemma {:induction false} WithDnsKeeps(servers: seq<Option<Addr>>, allowed: seq<Option<Prefix>>)
    ensures forall c | c in allowed :: c in WithDns(servers, allowed)
    ensures forall c | c in WithDns(servers, allowed) ::
              c in allowed || (exists i :: 0 <= i < |servers| && servers[i].Some? && c == Some(HostRoute(servers[i].value)))
    ensures forall i | 0 <= i < |servers| && servers[i].Some? :: Some(HostRoute(servers[i].value)) in WithDns(servers, allowed)
  {
    if servers != [] {
      var more := if servers[0].None? || Some(HostRoute(servers[0].value)) in allowed then allowed
                  else allowed + [Some(HostRoute(servers[0].value))];
      WithDnsKeeps(servers[1..], more);
      assert forall i | 0 <= i < |servers[1..]| :: servers[1..][i] == servers[i + 1];
      forall c | c in WithDns(servers, allowed)
        ensures c in allowed || (exists i :: 0 <= i < |servers| && servers[i].Some? && c == Some(HostRoute(servers[i].value)))
      {
        if c in more {
          assert c in allowed || c == Some(HostRoute(servers[0].value));
        } else {
          var i :| 0 <= i < |servers[1..]| && servers[1..][i].Some? && c == Some(HostRoute(servers[1..][i].value));
          assert servers[i + 1] == servers[1..][i];
        }
      }
    }
  }

  /** The addresses a policy is about: its four sources. */
  predicate PolicyNames(p: Policy, a: Addr) {
    || Routed(p.allowedIps, a)
    || a in p.resolutions
    || (exists i :: 0 <= i < |p.virtualHosts| && p.virtualHosts[i].virtualIp == a)
    || Some(a) in p.dnsServers
  }

  lemma RoutedIsNamed(p: Policy, a: Addr)
    requires forall i | 0 <= i < |p.virtualHosts| :: ValidHost(p.virtualHosts[i])
    requires Routed(PhoneRoutes(p), a)
    ensures PolicyNames(p, a)
  {
    var rows, norm := UnionRows(p), NormalizeAll(UnionRows(p));
    DedupKeepsOneOfEach(norm);
    WithDnsKeeps(p.dnsServers, AllowedIps(p));
    var c :| c in PhoneRoutes(p) && c.Some? && Contains(c.value, a);
    if c in AllowedIps(p) {
      var i :| 0 <= i < |norm| && norm[i] == c;
      MaskedSameAddresses(rows[i].value, a);
      RowSource(p, i, a);
    } else {
      var i :| 0 <= i < |p.dnsServers| && p.dnsServers[i].Some? && c == Some(HostRoute(p.dnsServers[i].value));
      HostRouteIsOneAddress(p.dnsServers[i].value, a);
    }
  }

  lemma NamedIsRouted(p: Policy, a: Addr)
    requires forall i | 0 <= i < |p.virtualHosts| :: ValidHost(p.virtualHosts[i])
    requires PolicyNames(p, a)
    ensures Routed(PhoneRoutes(p), a)
  {
    var rows := UnionRows(p);
    HostRouteIsOneAddress(a, a);
    if Routed(p.allowedIps, a) {
      var c :| c in p.allowedIps && c.Some? && Contains(c.value, a);
      var i :| 0 <= i < |p.allowedIps| && p.allowedIps[i] == c;
      RowRouted(p, i, a);
    } else if a in p.resolutions {
      var i :| 0 <= i < |p.resolutions| && p.resolutions[i] == a;
      assert rows[|p.allowedIps| + i] == Some(HostRoute(a));
      RowRouted(p, |p.allowedIps| + i, a);
    } else if i :| 0 <= i < |p.virtualHosts| && p.virtualHosts[i].virtualIp == a {
      assert rows[|p.allowedIps| + |p.resolutions| + i] == Some(HostRoute(a));
      RowRouted(p, |p.allowedIps| + |p.resolutions| + i, a);
    } else {
      WithDnsKeeps(p.dnsServers, AllowedIps(p));
      var i :| 0 <= i < |p.dnsServers| && p.dnsServers[i] == Some(a);
      assert Some(HostRoute(a)) in PhoneRoutes(p);
    }
  }

  /** The phone's list has no entry twice and spells every CIDR by its network address. */
  lemma PhoneRoutesAreTidy(p: Policy)
    ensures forall i, j | 0 <= i < j < |PhoneRoutes(p)| :: PhoneRoutes(p)[i] != PhoneRoutes(p)[j]
    ensures forall c | c in PhoneRoutes(p) && c.Some? :: Masked(c.value) == c.value
  {
    var norm := NormalizeAll(UnionRows(p));
    DedupKeepsOneOfEach(norm);
    forall c | c in AllowedIps(p) && c.Some? ensures Masked(c.value) == c.value {
      var i :| 0 <= i < |norm| && norm[i] == c;
      MaskedSameAddresses(UnionRows(p)[i].value, Addr(V4, 0));
    }
    WithDnsTidy(p.dnsServers, AllowedIps(p));
  }

  lemma {:induction false} WithDnsTidy(servers: seq<Option<Addr>>, allowed: seq<Option<Prefix>>)
    requires forall i, j | 0 <= i < j < |allowed| :: allowed[i] != allowed[j]
    requires forall c | c in allowed && c.Some? :: Masked(c.value) == c.value
    ensures var all := WithDns(servers, allowed);
            && |allowed| <= |all| && all[..|allowed|] == allowed
            && (forall i, j | 0 <= i < j < |all| :: all[i] != all[j]) && (forall c | c in all && c.Some? :: Masked(c.value) == c.value)
  {
    if servers != [] {
      var more := if servers[0].None? || Some(HostRoute(servers[0].value)) in allowed then allowed
                  else allowed + [Some(HostRoute(servers[0].value))];
      assert servers[0].Some? ==> HostBits(HostRoute(servers[0].value)) == 0;
      WithDnsTidy(servers[1..], more);
      assert WithDns(servers, allowed)[..|allowed|] == WithDns(servers[1..], more)[..|more|][..|allowed|];
    }
  }

  /** The phone's list is exactly the policy's four sources, however each CIDR is spelled. */
  lemma PhoneRoutesAreThePolicy(p: Policy, a: Addr)
    requires forall i | 0 <= i < |p.virtualHosts| :: ValidHost(p.virtualHosts[i])
    ensures Routed(PhoneRoutes(p), a) <==> PolicyNames(p, a)
  {
    if Routed(PhoneRoutes(p), a) {
      RoutedIsNamed(p, a);
    }
    if PolicyNames(p, a) {
      NamedIsRouted(p, a);
    }
  }

  predicate Routed(cidrs: seq<Option<Prefix>>, a: Addr) {
    exists c :: c in cidrs && c.Some? && Contains(c.value, a)
  }

  lemma RowRouted(p: Policy, i: nat, a: Addr)
    requires i < |UnionRows(p)| && UnionRows(p)[i].Some? && Contains(UnionRows(p)[i].value, a)
    ensures Routed(PhoneRoutes(p), a)
  {
    var norm := NormalizeAll(UnionRows(p));
    DedupKeepsOneOfEach(norm);
    WithDnsKeeps(p.dnsServers, AllowedIps(p));
    MaskedSameAddresses(UnionRows(p)[i].value, a);
    assert norm[i] in AllowedIps(p);
  }

  lemma RowSource(p: Policy, i: nat, a: Addr)
    requires forall j | 0 <= j < |p.virtualHosts| :: ValidHost(p.virtualHosts[j])
    requires i < |UnionRows(p)| && UnionRows(p)[i].Some? && Contains(UnionRows(p)[i].value, a)
    ensures Routed(p.allowedIps, a) || a in p.resolutions
            || (exists j :: 0 <= j < |p.virtualHosts| && p.virtualHosts[j].virtualIp == a)
  {
    var n, m := |p.allowedIps|, |p.resolutions|;
    if i < n {
      assert p.allowedIps[i] in p.allowedIps;
    } else if i < n + m {
      HostRouteIsOneAddress(p.resolutions[i - n], a);
    } else {
      assert UnionRows(p)[i].value == HostRoute(p.virtualHosts[i - n - m].virtualIp);
      HostRouteIsOneAddress(p.virtualHosts[i - n - m].virtualIp, a);
    }
  }

  // ----- Phone and gateway agree ---------------------------------------------------

  ghost predicate ListedAs(t: Tables, d: Device, p: Peer) {
    exists rows :: AnswersRuleQuery(t, d, rows) && p == NodePeer(t, d, rows)
  }

  /** One of the device's own tunnel addresses. */
  predicate DeviceOwns(d: Device, a: Addr) {
    (a.family == V4 && d.ipv4 == Some(a)) || (a.family == V6 && d.ipv6 == Some(a))
  }

  lemma ListedOwns(t: Tables, d: Device, p: Peer, a: Addr)
    requires ListedAs(t, d, p)
    ensures Owns(p, a) <==> DeviceOwns(d, a)
    ensures p.deviceId == d.id && p.publicKey == d.publicKey && p.psk == d.psk && p.ipv4 == d.ipv4 && p.ipv6 == d.ipv6
  {
  }

  /** Real addresses are IPv4, as the /32 suffix and the `ip` rewrite presume. */
  predicate UsableHosts(hosts: seq<VirtualHost>) {
    forall i | 0 <= i < |hosts| :: ValidHost(hosts[i]) && hosts[i].realIp.family == V4
  }

  lemma {:induction false} RewriteHits(rewrites: seq<Rewrite>, dst: Addr)
    ensures RewriteOf(rewrites, dst).Some? ==>
              exists i :: 0 <= i < |rewrites| && rewrites[i] == Rewrite(dst, RewriteOf(rewrites, dst).value)
    ensures RewriteOf(rewrites, dst).None? ==> forall i | 0 <= i < |rewrites| :: rewrites[i].virtualIp != dst
  {
    if rewrites != [] && rewrites[0].virtualIp != dst {
      RewriteHits(rewrites[1..], dst);
      if RewriteOf(rewrites, dst).Some? {
        var i :| 0 <= i < |rewrites[1..]| && rewrites[1..][i] == Rewrite(dst, RewriteOf(rewrites, dst).value);
        assert rewrites[i + 1] == rewrites[1..][i];
      } else {
        assert forall i | 1 <= i < |rewrites| :: rewrites[i] == rewrites[1..][i - 1];
      }
    } else if rewrites != [] {
      assert rewrites[0] == Rewrite(dst, RewriteOf(rewrites, dst).value);
    }
  }

  lemma RewrittenInCidrs(pol: Policy, dst: Addr)
    requires UsableHosts(pol.virtualHosts) && RewriteOf(Rewrites(pol.virtualHosts), dst).Some?
    ensures var target := RewriteOf(Rewrites(pol.virtualHosts), dst).value;
            Routed(GatewayCidrs(pol), target) && target.family == V4 == dst.family
  {
    var rewrites := Rewrites(pol.virtualHosts);
    RewriteHits(rewrites, dst);
    var i :| 0 <= i < |rewrites| && rewrites[i] == Rewrite(dst, RewriteOf(rewrites, dst).value);
    var target := pol.virtualHosts[i].realIp;
    assert GatewayCidrs(pol)[|PhoneRoutes(pol)| + i] == Some(HostRoute(target));
    HostRouteIsOneAddress(target, target);
  }

  lemma RoutedInCidrs(pol: Policy, dst: Addr)
    requires Routed(PhoneRoutes(pol), dst)
    ensures Routed(GatewayCidrs(pol), dst)
  {
    var c :| c in PhoneRoutes(pol) && c.Some? && Contains(c.value, dst);
    assert c in GatewayCidrs(pol);
  }

  /** What leaves prerouting is still a packet of the device, to one of its gateway's destinations. */
  lemma RewrittenPacket(pol: Policy, p: Peer, peers: seq<Peer>, pkt: Packet)
    requires UsableHosts(pol.virtualHosts) && p.rewrites == Rewrites(pol.virtualHosts) && p.destCidrs == GatewayCidrs(pol)
    requires p in peers && DisjointAddresses(peers) && Owns(p, pkt.src) && WellFormed(pkt) && pkt.iif == "wg0"
    requires Routed(PhoneRoutes(pol), pkt.dst)
    ensures var out := Dnat(Prerouting(peers), pkt);
            && WellFormed(out) && out.src == pkt.src && out.iif == pkt.iif && out.ct == pkt.ct && InCidrs(p, out.dst)
  {
    DnatMeaning(peers, pkt);
    OnlyAt(peers, p, pkt.src);
    if DnatTarget(Prerouting(peers), pkt).Some? {
      RewrittenInCidrs(pol, pkt.dst);
    } else {
      RoutedInCidrs(pol, pkt.dst);
    }
  }

  /**
   * A governed device without L4 rules: every address the phone was told to
   * route is accepted by the gateway, after destination rewriting.
   */
  lemma PhoneAndGatewayAgree(t: Tables, d: Device, id: string, p: Peer, peers: seq<Peer>, o: Options, pkt: Packet)
    requires JudgedBy(t, d, id) && UsableHosts(t.policies[id].virtualHosts)
    requires ListedAs(t, d, p) && p in peers && p.rules == [] && DisjointAddresses(peers)
    requires DeviceOwns(d, pkt.src) && WellFormed(pkt) && pkt.ct != Invalid && pkt.iif == Iface(o) == "wg0"
    requires Routed(PhoneRoutes(t.policies[id]), pkt.dst)
    ensures Evaluate(ForwardChain(peers, o), Dnat(Prerouting(peers), pkt), Drop) == Accept
  {
    var pol := t.policies[id];
    EffectivePolicyIsTheJudge(t, d);
    var out := Dnat(Prerouting(peers), pkt);
    RewrittenPacket(pol, p, peers, pkt);
    assert p.policyBound && !InCovered(p, out.dst) && FirstRule(p.rules, out) == None;
    ForwardMeaning(peers, o, out);
  }

  /** Rewritten addresses leave the virtual range, so a second pass would change nothing. */
  lemma OneDnatPassSuffices(peers: seq<Peer>, pkt: Packet)
    requires DisjointAddresses(peers)
    requires forall p, i | p in peers && 0 <= i < |p.rewrites| ::
               Contains(VIRTUAL_RANGE, p.rewrites[i].virtualIp) && !Contains(VIRTUAL_RANGE, p.rewrites[i].realIp)
    ensures Dnat(Prerouting(peers), Dnat(Prerouting(peers), pkt)) == Dnat(Prerouting(peers), pkt)
    ensures Dnat(Prerouting(peers), pkt) != pkt ==> !Contains(VIRTUAL_RANGE, Dnat(Prerouting(peers), pkt).dst)
  {
    var once := Dnat(Prerouting(peers), pkt);
    DnatMeaning(peers, pkt);
    DnatMeaning(peers, once);
    if p :| p in peers && p.ipv4 == Some(pkt.src) {
      RewriteHits(p.rewrites, pkt.dst);
      RewriteHits(p.rewrites, once.dst);
    }
  }

  // ----- What the stored rows permit -------------------------------------------------

  /** The row names a valid prefix that holds the address. */
  predicate RowCovers(r: RuleRow, a: Addr) {
    && r.dst.Some? && r.bits <= Width(r.dst.value.family)
    && Contains(Prefix(r.dst.value.family, r.dst.value.value, r.bits), a)
  }

  predicate RowApplies(r: RuleRow, pkt: Packet) {
    RowCovers(r, pkt.dst) && RowMatchesL4(r, pkt)
  }

  /** The rule names the device, its live group, a group it is a member of, or everyone. */
  ghost predicate Names(t: Tables, d: Device, r: RuleRow) {
    || (r.sourceDevice.None? && r.sourceGroup.None?)
    || r.sourceDevice == Some(d.id)
    || (exists g :: r.sourceGroup == Some(g) && (InLiveGroup(t, d, g) || g in d.memberOf))
  }

  lemma TargetsInColumns(t: Tables, d: Device, r: RuleRow)
    ensures Targets(t, d, r) <==> Names(t, d, r)
  {
    if Targets(t, d, r) && r.sourceGroup.Some? {
      assert r.sourceGroup == Some(r.sourceGroup.value);
    }
  }

  /** A stored rule of the policy that is about the device. */
  ghost predicate Governs(t: Tables, d: Device, pol: Policy, r: RuleRow) {
    r in pol.rules && Names(t, d, r)
  }

  /** Some stored rule with this action applies to the packet. */
  ghost predicate RowsSay(t: Tables, d: Device, pol: Policy, action: string, pkt: Packet) {
    exists r :: Governs(t, d, pol, r) && r.action == action && RowApplies(r, pkt)
  }

  /** Some accept rule is about this address, whatever its protocol and ports. */
  ghost predicate RowsCover(t: Tables, d: Device, pol: Policy, a: Addr) {
    exists r :: Governs(t, d, pol, r) && r.action == "accept" && RowCovers(r, a)
  }

  predicate IsRealAddress(pol: Policy, a: Addr) {
    exists i :: 0 <= i < |pol.virtualHosts| && pol.virtualHosts[i].realIp == a
  }

  /** No drop or reject rule applies, and either an accept rule does or the packet goes to something
      the policy names and no accept rule is about. */
  ghost predicate PolicyPermits(t: Tables, d: Device, pol: Policy, pkt: Packet) {
    && !RowsSay(t, d, pol, "drop", pkt) && !RowsSay(t, d, pol, "reject", pkt)
    && (RowsSay(t, d, pol, "accept", pkt)
        || ((PolicyNames(pol, pkt.dst) || IsRealAddress(pol, pkt.dst)) && !RowsCover(t, d, pol, pkt.dst)))
  }

  /** What the tables say of one packet of a device: the policy row that judges it permits it. */
  ghost predicate TablesPermit(t: Tables, d: Device, pkt: Packet) {
    exists id :: JudgedBy(t, d, id) && PolicyPermits(t, d, t.policies[id], pkt)
  }

  /** A reject rule of the judging policy applies and no drop rule does. */
  ghost predicate TablesReject(t: Tables, d: Device, pkt: Packet) {
    exists id :: JudgedBy(t, d, id) && RowsSay(t, d, t.policies[id], "reject", pkt) && !RowsSay(t, d, t.policies[id], "drop", pkt)
  }

  lemma {:induction false} SelectMembers(t: Tables, d: Device, rows: seq<RuleRow>, r: RuleRow)
    ensures r in SelectRows(t, d, rows) <==> r in rows && Targets(t, d, r)
  {
    if rows != [] {
      SelectMembers(t, d, rows[1..], r);
      assert rows == [rows[0]] + rows[1..];
    }
  }

  lemma AnswerMembers(t: Tables, d: Device, pol: Policy, rows: seq<RuleRow>, r: RuleRow)
    requires EffectivePolicy(t, d) == Some(pol) && AnswersRuleQuery(t, d, rows)
    ensures r in rows <==> Governs(t, d, pol, r)
  {
    SelectMembers(t, d, pol.rules, r);
    TargetsInColumns(t, d, r);
    assert r in multiset(rows) <==> r in multiset(SelectRows(t, d, pol.rules));
  }

  /** The wire rule of a row, if the row parses. */
  predicate SentAs(r: RuleRow, w: Rule) {
    RowDst(r).Some? && w == ToWire(r, RowDst(r).value)
  }

  lemma {:induction false} WireMembers(rows: seq<RuleRow>, w: Rule)
    ensures w in WireRules(rows) <==> exists r :: r in rows && SentAs(r, w)
  {
    if rows != [] {
      WireMembers(rows[1..], w);
      assert rows == [rows[0]] + rows[1..];
      if SentAs(rows[0], w) {
        assert rows[0] in rows;
      }
    }
  }

  lemma SentMeansRow(r: RuleRow, w: Rule, pkt: Packet)
    requires SentAs(r, w)
    ensures w.dst.Some? && (Contains(w.dst.value, pkt.dst) <==> RowCovers(r, pkt.dst))
    ensures L4Matches(L4Match(w), pkt) <==> RowMatchesL4(r, pkt)
    ensures w.action == r.action
  {
    MaskedSameAddresses(Prefix(r.dst.value.family, r.dst.value.value, r.bits), pkt.dst);
    WireRuleMeansRow(r, RowDst(r).value, pkt);
  }

  /** A row about an address is sent. */
  lemma GovernedRule(t: Tables, d: Device, pol: Policy, rows: seq<RuleRow>, r: RuleRow, a: Addr)
    requires EffectivePolicy(t, d) == Some(pol) && AnswersRuleQuery(t, d, rows)
    requires Governs(t, d, pol, r) && RowCovers(r, a)
    ensures RowDst(r).Some? && ToWire(r, RowDst(r).value) in WireRules(rows)
  {
    AnswerMembers(t, d, pol, rows, r);
    WireMembers(rows, ToWire(r, RowDst(r).value));
    assert SentAs(r, ToWire(r, RowDst(r).value));
  }

  lemma RuleFromRow(t: Tables, d: Device, pol: Policy, rows: seq<RuleRow>, w: Rule) returns (r: RuleRow)
    requires EffectivePolicy(t, d) == Some(pol) && AnswersRuleQuery(t, d, rows) && w in WireRules(rows)
    ensures Governs(t, d, pol, r) && SentAs(r, w)
  {
    WireMembers(rows, w);
    r :| r in rows && SentAs(r, w);
    AnswerMembers(t, d, pol, rows, r);
  }

  /** A row is sent exactly when its bytes are an address and its length fits, by its network address. */
  lemma RowDstInColumns(r: RuleRow)
    ensures RowDst(r).Some? <==> r.dst.Some? && r.bits <= (if r.dst.value.family == V4 then 32 else 128)
    ensures RowDst(r).Some? ==>
              && RowDst(r).value.family == r.dst.value.family && RowDst(r).value.bits == r.bits
              && Masked(RowDst(r).value) == RowDst(r).value && Contains(RowDst(r).value, r.dst.value)
  {
    if RowDst(r).Some? {
      MaskedSameAddresses(Prefix(r.dst.value.family, r.dst.value.value, r.bits), r.dst.value);
    }
  }

  /** A peer is marked as governed exactly when a policy row judges its device. */
  lemma BoundIffJudged(t: Tables, d: Device, p: Peer)
    requires ListedAs(t, d, p)
    ensures p.policyBound <==> exists id :: JudgedBy(t, d, id)
  {
    EffectivePolicyIsTheJudge(t, d);
  }

  predicate KnownAction(action: string) {
    action == "drop" || action == "reject" || action == "accept"
  }

  /** Some rule with this action applies to the packet. */
  predicate RulesSay(rules: seq<Rule>, action: string, pkt: Packet) {
    exists i :: 0 <= i < |rules| && rules[i].action == action && RuleApplies(rules[i], pkt)
  }

  lemma RulesSayHead(rules: seq<Rule>, action: string, pkt: Packet)
    requires rules != []
    ensures RulesSay(rules, action, pkt) <==>
            (rules[0].action == action && RuleApplies(rules[0], pkt)) || RulesSay(rules[1..], action, pkt)
  {
    if RulesSay(rules[1..], action, pkt) {
      var i :| 0 <= i < |rules[1..]| && rules[1..][i].action == action && RuleApplies(rules[1..][i], pkt);
      assert rules[i + 1] == rules[1..][i];
    }
    if i :| 0 <= i < |rules| && rules[i].action == action && RuleApplies(rules[i], pkt) {
      assert i != 0 ==> rules[1..][i - 1] == rules[i];
    }
  }

  /** The compiled rules with an action apply exactly when stored rows with it do. */
  lemma ActionByRows(t: Tables, d: Device, pol: Policy, rows: seq<RuleRow>, action: string, pkt: Packet)
    requires EffectivePolicy(t, d) == Some(pol) && AnswersRuleQuery(t, d, rows) && KnownAction(action)
    ensures RulesSay(WireRules(rows), action, pkt) <==> RowsSay(t, d, pol, action, pkt)
  {
    var rules := WireRules(rows);
    if RulesSay(rules, action, pkt) {
      var i :| 0 <= i < |rules| && rules[i].action == action && RuleApplies(rules[i], pkt);
      var r := RuleFromRow(t, d, pol, rows, rules[i]);
      SentMeansRow(r, rules[i], pkt);
      assert Governs(t, d, pol, r) && r.action == action && RowApplies(r, pkt);
    }
    if RowsSay(t, d, pol, action, pkt) {
      var r :| Governs(t, d, pol, r) && r.action == action && RowApplies(r, pkt);
      GovernedRule(t, d, pol, rows, r, pkt.dst);
      var w := ToWire(r, RowDst(r).value);
      SentMeansRow(r, w, pkt);
      var i :| 0 <= i < |rules| && rules[i] == w;
      assert rules[i].action == action && RuleApplies(rules[i], pkt);
    }
  }

  lemma CoveredByRows(t: Tables, d: Device, pol: Policy, rows: seq<RuleRow>, p: Peer, pkt: Packet)
    requires EffectivePolicy(t, d) == Some(pol) && AnswersRuleQuery(t, d, rows) && p.rules == WireRules(rows)
    ensures InCovered(p, pkt.dst) <==> RowsCover(t, d, pol, pkt.dst)
  {
    if InCovered(p, pkt.dst) {
      var i :| 0 <= i < |p.rules| && IsAccept(p.rules[i]) && Contains(p.rules[i].dst.value, pkt.dst);
      var r := RuleFromRow(t, d, pol, rows, p.rules[i]);
      SentMeansRow(r, p.rules[i], pkt);
      assert Governs(t, d, pol, r) && r.action == "accept" && RowCovers(r, pkt.dst);
    }
    if RowsCover(t, d, pol, pkt.dst) {
      var r :| Governs(t, d, pol, r) && r.action == "accept" && RowCovers(r, pkt.dst);
      GovernedRule(t, d, pol, rows, r, pkt.dst);
      var w := ToWire(r, RowDst(r).value);
      SentMeansRow(r, w, pkt);
      var i :| 0 <= i < |p.rules| && p.rules[i] == w;
    }
  }

  /** Drops come first, then rejects, then accepts. */
  predicate Ranked(rules: seq<Rule>) {
    forall i, j | 0 <= i < j < |rules| :: Field(rules[i].action) <= Field(rules[j].action)
  }

  lemma {:induction false} ControllerRulesRanked(rows: seq<RuleRow>)
    requires Order.Sorted(RowLe, rows)
    ensures Ranked(WireRules(rows))
  {
    if rows != [] {
      ControllerRulesRanked(rows[1..]);
      forall i | 0 <= i < |rows[1..]| ensures Field(rows[0].action) <= Field(rows[1..][i].action) {
        assert RowLe(rows[0], rows[i + 1]);
      }
      WireRulesRank(rows[1..], Field(rows[0].action));
    }
  }

  /** First match over ranked rules: any drop wins, then any reject, then any accept. */
  lemma {:induction false} RankedVerdict(rules: seq<Rule>, pkt: Packet)
    requires Ranked(rules)
    ensures FirstRule(rules, pkt) ==
            if RulesSay(rules, "drop", pkt) then Some(Drop)
            else if RulesSay(rules, "reject", pkt) then Some(Reject)
            else if RulesSay(rules, "accept", pkt) then Some(Accept) else None
  {
    if rules != [] {
      RankedVerdict(rules[1..], pkt);
      RulesSayHead(rules, "drop", pkt);
      RulesSayHead(rules, "reject", pkt);
      RulesSayHead(rules, "accept", pkt);
      LowerRanksAbsent(rules, pkt);
    }
  }

  lemma LowerRanksAbsent(rules: seq<Rule>, pkt: Packet)
    requires Ranked(rules) && rules != []
    ensures rules[0].action == "accept" || rules[0].action == "reject" ==> !RulesSay(rules[1..], "drop", pkt)
    ensures rules[0].action == "accept" ==> !RulesSay(rules[1..], "reject", pkt)
  {
    assert forall j | 0 <= j < |rules[1..]| :: rules[1..][j] == rules[j + 1];
  }

  /** The gateway's bare CIDRs hold what the policy names, and the real addresses behind its virtual hosts. */
  lemma CidrsByPolicy(t: Tables, d: Device, pol: Policy, rows: seq<RuleRow>, p: Peer, a: Addr)
    requires EffectivePolicy(t, d) == Some(pol) && p == NodePeer(t, d, rows) && UsableHosts(pol.virtualHosts)
    ensures InCidrs(p, a) <==> PolicyNames(pol, a) || IsRealAddress(pol, a)
  {
    PhoneRoutesAreThePolicy(pol, a);
    var n := |PhoneRoutes(pol)|;
    assert p.destCidrs == PhoneRoutes(pol) + RealRoutes(pol.virtualHosts);
    if i :| 0 <= i < |p.destCidrs| && p.destCidrs[i].Some? && Contains(p.destCidrs[i].value, a) {
      if i < n {
        assert PhoneRoutes(pol)[i] in PhoneRoutes(pol);
      } else {
        HostRouteIsOneAddress(pol.virtualHosts[i - n].realIp, a);
      }
    }
    if Routed(PhoneRoutes(pol), a) {
      var c :| c in PhoneRoutes(pol) && c.Some? && Contains(c.value, a);
      var i :| 0 <= i < n && PhoneRoutes(pol)[i] == c;
      assert p.destCidrs[i] == c;
    }
    if i :| 0 <= i < |pol.virtualHosts| && pol.virtualHosts[i].realIp == a {
      HostRouteIsOneAddress(a, a);
      assert p.destCidrs[n + i] == Some(HostRoute(a));
    }
  }

  /** The peer's verdict on a packet, read off the stored rows of the policy. */
  lemma VerdictByPolicy(t: Tables, d: Device, pol: Policy, p: Peer, pkt: Packet)
    requires ListedAs(t, d, p) && EffectivePolicy(t, d) == Some(pol) && UsableHosts(pol.virtualHosts)
    ensures PolicyVerdict(p, pkt) == Some(Accept) <==> PolicyPermits(t, d, pol, pkt)
    ensures PolicyVerdict(p, pkt) == Some(Reject) <==> RowsSay(t, d, pol, "reject", pkt) && !RowsSay(t, d, pol, "drop", pkt)
  {
    var rows :| AnswersRuleQuery(t, d, rows) && p == NodePeer(t, d, rows);
    ActionByRows(t, d, pol, rows, "drop", pkt);
    ActionByRows(t, d, pol, rows, "reject", pkt);
    ActionByRows(t, d, pol, rows, "accept", pkt);
    CoveredByRows(t, d, pol, rows, p, pkt);
    CidrsByPolicy(t, d, pol, rows, p, pkt.dst);
    ControllerRulesRanked(rows);
    RankedVerdict(p.rules, pkt);
  }

  /** The same read off the tables; a device no policy row judges is dropped. */
  lemma VerdictByTables(t: Tables, d: Device, p: Peer, pkt: Packet)
    requires ListedAs(t, d, p) && HostsUsable(t)
    ensures PolicyVerdict(p, pkt) == Some(Accept) <==> TablesPermit(t, d, pkt)
    ensures PolicyVerdict(p, pkt) == Some(Reject) <==> TablesReject(t, d, pkt)
  {
    EffectivePolicyIsTheJudge(t, d);
    if id :| JudgedBy(t, d, id) {
      VerdictByPolicy(t, d, t.policies[id], p, pkt);
    }
  }

  /** Every policy's virtual hosts are as `VirtualHostTable.Add` leaves them, with IPv4 real addresses. */
  predicate HostsUsable(t: Tables) {
    forall id | id in t.policies :: UsableHosts(t.policies[id].virtualHosts)
  }

  /** `peers` is what the controller answers for `devices`, no address twice. */
  ghost predicate Answered(t: Tables, devices: seq<Device>, peers: seq<Peer>) {
    && |devices| == |peers| && (forall i | 0 <= i < |peers| :: ListedAs(t, devices[i], peers[i]))
    && DisjointAddresses(peers) && HostsUsable(t)
  }

  /**
   * End to end, from the stored tables: on any list the controller can answer, a
   * tunnel packet passes the gateway exactly when its source is an address of a
   * listed device and the tables permit the packet, and is rejected exactly when
   * they reject it; it is dropped otherwise.
   */
  lemma ControllerPolicyIsEnforced(t: Tables, devices: seq<Device>, peers: seq<Peer>, o: Options, pkt: Packet)
    requires Answered(t, devices, peers)
    requires WellFormed(pkt) && pkt.iif == Iface(o) && pkt.ct != Invalid
    ensures Evaluate(ForwardChain(peers, o), pkt, Drop) == Accept <==>
            exists i :: 0 <= i < |devices| && DeviceOwns(devices[i], pkt.src) && TablesPermit(t, devices[i], pkt)
    ensures Evaluate(ForwardChain(peers, o), pkt, Drop) == Reject <==>
            exists i :: 0 <= i < |devices| && DeviceOwns(devices[i], pkt.src) && TablesReject(t, devices[i], pkt)
  {
    forall i: nat | i < |devices| && DeviceOwns(devices[i], pkt.src)
      ensures Evaluate(ForwardChain(peers, o), pkt, Drop) == Accept <==> TablesPermit(t, devices[i], pkt)
      ensures Evaluate(ForwardChain(peers, o), pkt, Drop) == Reject <==> TablesReject(t, devices[i], pkt)
    {
      DevicePolicyIsEnforced(t, devices, peers, o, pkt, i);
    }
    if forall i: nat | i < |devices| :: !DeviceOwns(devices[i], pkt.src) {
      forall p | p in peers ensures !Owns(p, pkt.src) {
        var i :| 0 <= i < |peers| && peers[i] == p;
        ListedOwns(t, devices[i], p, pkt.src);
      }
      ForwardMeaning(peers, o, pkt);
    }
  }

  /** The same for one device that owns the source. */
  lemma DevicePolicyIsEnforced(t: Tables, devices: seq<Device>, peers: seq<Peer>, o: Options, pkt: Packet, i: nat)
    requires Answered(t, devices, peers) && i < |devices| && DeviceOwns(devices[i], pkt.src)
    requires WellFormed(pkt) && pkt.iif == Iface(o) && pkt.ct != Invalid
    ensures Evaluate(ForwardChain(peers, o), pkt, Drop) == Accept <==> TablesPermit(t, devices[i], pkt)
    ensures Evaluate(ForwardChain(peers, o), pkt, Drop) == Reject <==> TablesReject(t, devices[i], pkt)
  {
    ListedOwns(t, devices[i], peers[i], pkt.src);
    VerdictByTables(t, devices[i], peers[i], pkt);
    ForwardMeaning(peers, o, pkt);
    assert peers[i] in peers;
  }

  // ----- The device's own policy, and none ---------------------------------------------

  /** A device with a policy of its own is judged by that row alone, whatever its group has; if that
      row is missing, disabled, deleted or another tenant's, all its packets are dropped. */
  lemma OwnPolicyWins(t: Tables, devices: seq<Device>, peers: seq<Peer>, o: Options, pkt: Packet, i: nat, id: string)
    requires Answered(t, devices, peers) && i < |devices| && DeviceOwns(devices[i], pkt.src) && devices[i].policy == Some(id)
    requires WellFormed(pkt) && pkt.iif == Iface(o) && pkt.ct != Invalid
    ensures var v, live := Evaluate(ForwardChain(peers, o), pkt, Drop),
                           id in t.policies && t.policies[id].tenant == devices[i].tenant
                           && t.policies[id].enabled && !t.policies[id].deleted;
            && (v == Accept <==> live && PolicyPermits(t, devices[i], t.policies[id], pkt))
            && (!live ==> v == Drop)
  {
    DevicePolicyIsEnforced(t, devices, peers, o, pkt, i);
    assert forall other | JudgedBy(t, devices[i], other) :: other == id;
  }

  /** A device without one is judged by the policy of its live group; without either, dropped. */
  lemma GroupPolicyOtherwise(t: Tables, devices: seq<Device>, peers: seq<Peer>, o: Options, pkt: Packet, i: nat, g: string)
    requires Answered(t, devices, peers) && i < |devices| && DeviceOwns(devices[i], pkt.src) && devices[i].policy == None
    requires WellFormed(pkt) && pkt.iif == Iface(o) && pkt.ct != Invalid
    ensures var v, inherited := Evaluate(ForwardChain(peers, o), pkt, Drop),
                                InLiveGroup(t, devices[i], g) && t.groups[g].policy.Some?
                                && JudgedBy(t, devices[i], t.groups[g].policy.value);
            && (inherited ==> (v == Accept <==> PolicyPermits(t, devices[i], t.policies[t.groups[g].policy.value], pkt)))
            && (!inherited && (devices[i].group.None? || devices[i].group == Some(g)) ==> v == Drop)
  {
    DevicePolicyIsEnforced(t, devices, peers, o, pkt, i);
    forall other | JudgedBy(t, devices[i], other)
      ensures devices[i].group.Some? && InLiveGroup(t, devices[i], devices[i].group.value)
      ensures t.groups[devices[i].group.value].policy == Some(other)
    {
    }
  }

  // ----- Address translation, from the tables ---------------------------------------

  /** The first virtual host for an address sends it to its real one; any other address stays. */
  predicate SendsTo(hosts: seq<VirtualHost>, dst: Addr, to: Addr) {
    || (exists i :: 0 <= i < |hosts| && hosts[i] == VirtualHost(dst, to) && forall j | 0 <= j < i :: hosts[j].virtualIp != dst)
    || (to == dst && forall j | 0 <= j < |hosts| :: hosts[j].virtualIp != dst)
  }

  lemma {:induction false} RewriteSends(hosts: seq<VirtualHost>, dst: Addr)
    ensures var to := RewriteOf(Rewrites(hosts), dst); SendsTo(hosts, dst, if to.Some? then to.value else dst)
  {
    if hosts != [] && hosts[0].virtualIp == dst {
      assert hosts[0] == VirtualHost(dst, hosts[0].realIp);
    } else if hosts != [] {
      var rest := hosts[1..];
      RewriteSends(rest, dst);
      assert Rewrites(hosts)[1..] == Rewrites(rest);
      var to := RewriteOf(Rewrites(rest), dst);
      if i :| 0 <= i < |rest| && rest[i] == VirtualHost(dst, if to.Some? then to.value else dst)
              && forall j | 0 <= j < i :: rest[j].virtualIp != dst {
        assert hosts[i + 1] == rest[i];
        forall j | 0 <= j < i + 1 ensures hosts[j].virtualIp != dst {
          assert j != 0 ==> hosts[j] == rest[j - 1];
        }
      } else {
        forall j | 0 <= j < |hosts| ensures hosts[j].virtualIp != dst {
          assert j != 0 ==> hosts[j] == rest[j - 1];
        }
      }
    }
  }

  /** What a device's packet becomes on the way in: its judging policy's virtual hosts redirect what its
      IPv4 address sends, and nothing else changes. */
  ghost predicate RedirectedTo(t: Tables, d: Device, pkt: Packet, seen: Packet) {
    && seen == pkt.(dst := seen.dst)
    && (forall id | JudgedBy(t, d, id) && d.ipv4 == Some(pkt.src) :: SendsTo(t.policies[id].virtualHosts, pkt.dst, seen.dst))
    && (d.ipv4 != Some(pkt.src) || (forall id :: !JudgedBy(t, d, id)) ==> seen == pkt)
  }

  lemma DnatByTables(t: Tables, devices: seq<Device>, peers: seq<Peer>, pkt: Packet, i: nat)
    requires Answered(t, devices, peers) && i < |devices| && DeviceOwns(devices[i], pkt.src) && pkt.iif == "wg0"
    ensures RedirectedTo(t, devices[i], pkt, Dnat(Prerouting(peers), pkt))
  {
    var d, p := devices[i], peers[i];
    var rows :| AnswersRuleQuery(t, d, rows) && p == NodePeer(t, d, rows);
    EffectivePolicyIsTheJudge(t, d);
    ListedOwns(t, d, p, pkt.src);
    assert p in peers;
    DnatMeaning(peers, pkt);
    OnlyAt(peers, p, pkt.src);
    if id :| JudgedBy(t, d, id) {
      RewriteSends(t.policies[id].virtualHosts, pkt.dst);
    }
  }

  lemma RedirectedStaysWellFormed(t: Tables, d: Device, pkt: Packet, seen: Packet)
    requires HostsUsable(t) && WellFormed(pkt) && RedirectedTo(t, d, pkt, seen)
    ensures WellFormed(seen) && seen.src == pkt.src && seen.iif == pkt.iif && seen.ct == pkt.ct
  {
  }

  /** The same with the virtual hosts: the tables are asked about the packet they redirect to. */
  lemma RedirectedPolicyIsEnforced(t: Tables, devices: seq<Device>, peers: seq<Peer>, o: Options, pkt: Packet, i: nat)
    requires Answered(t, devices, peers) && i < |devices| && DeviceOwns(devices[i], pkt.src)
    requires WellFormed(pkt) && pkt.iif == Iface(o) == "wg0" && pkt.ct != Invalid
    ensures var seen := Dnat(Prerouting(peers), pkt);
            && RedirectedTo(t, devices[i], pkt, seen)
            && (Evaluate(ForwardChain(peers, o), seen, Drop) == Accept <==> TablesPermit(t, devices[i], seen))
            && (Evaluate(ForwardChain(peers, o), seen, Drop) == Reject <==> TablesReject(t, devices[i], seen))
  {
    var seen := Dnat(Prerouting(peers), pkt);
    DnatByTables(t, devices, peers, pkt, i);
    RedirectedStaysWellFormed(t, devices[i], pkt, seen);
    DevicePolicyIsEnforced(t, devices, peers, o, seen, i);
  }

  lemma {:induction false} ParsedNat(cidrs: seq<Option<Prefix>>, a: Addr)
    ensures NatTo(Parsed(cidrs), a) <==> Routed(cidrs, a)
  {
    if cidrs != [] {
      ParsedNat(cidrs[1..], a);
      assert forall c :: c in cidrs <==> c == cidrs[0] || c in cidrs[1..];
      var parsed := Parsed(cidrs);
      if cidrs[0].Some? {
        assert parsed[0] == cidrs[0].value && parsed[1..] == Parsed(cidrs[1..]);
        SourcedHead(parsed, a);
        assert NatTo(parsed, a) == Sourced(parsed, a) && NatTo(parsed[1..], a) == Sourced(parsed[1..], a);
      } else {
        assert parsed == Parsed(cidrs[1..]);
      }
    }
  }

  /** What a device's packet to an address is hidden behind: the gateway's own address, when the judging
      policy asks for that and names the destination. */
  ghost predicate TablesHide(t: Tables, d: Device, pkt: Packet) {
    d.ipv4 == Some(pkt.src)
    && exists id :: JudgedBy(t, d, id) && t.policies[id].sourceNat
                    && (PolicyNames(t.policies[id], pkt.dst) || IsRealAddress(t.policies[id], pkt.dst))
  }

  lemma NatByPolicy(t: Tables, d: Device, p: Peer, pkt: Packet)
    requires ListedAs(t, d, p) && HostsUsable(t)
    ensures p.ipv4 == Some(pkt.src) && NatTo(p.natCidrs, pkt.dst) <==> TablesHide(t, d, pkt)
  {
    var rows :| AnswersRuleQuery(t, d, rows) && p == NodePeer(t, d, rows);
    EffectivePolicyIsTheJudge(t, d);
    if id :| JudgedBy(t, d, id) {
      var pol := t.policies[id];
      CidrsByPolicy(t, d, pol, rows, p, pkt.dst);
      ParsedNat(GatewayCidrs(pol), pkt.dst);
      assert InCidrs(p, pkt.dst) <==> Routed(p.destCidrs, pkt.dst);
    }
  }

  /** A packet leaves with the gateway's address exactly when a listed device's policy hides it. */
  lemma MasqueradedByTables(t: Tables, devices: seq<Device>, peers: seq<Peer>, pkt: Packet)
    requires Answered(t, devices, peers)
    ensures Masqueraded(Postrouting(peers), pkt) <==> exists i :: 0 <= i < |devices| && TablesHide(t, devices[i], pkt)
  {
    MasqMeaning(peers, pkt);
    forall i | 0 <= i < |peers|
      ensures peers[i].ipv4 == Some(pkt.src) && NatTo(peers[i].natCidrs, pkt.dst) <==> TablesHide(t, devices[i], pkt)
    {
      NatByPolicy(t, devices[i], peers[i], pkt);
    }
    if p :| p in peers && p.ipv4 == Some(pkt.src) && NatTo(p.natCidrs, pkt.dst) {
      var i :| 0 <= i < |peers| && peers[i] == p;
    }
  }
}
