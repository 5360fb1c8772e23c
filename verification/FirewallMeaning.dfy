/** The compiled chains mean the declarative policy, for every peer list and packet. */
module FirewallMeaning {
  import opened Net
  import opened Firewall
  import Order

  // ----- First-match algebra ----------------------------------------------

  lemma {:induction false} FirstConcat(a: seq<Line>, b: seq<Line>, pkt: Packet)
    ensures First(a + b, pkt) == if First(a, pkt).Some? then First(a, pkt) else First(b, pkt)
  {
    if a == [] {
      assert a + b == b;
    } else {
      assert (a + b)[0] == a[0] && (a + b)[1..] == a[1..] + b;
      FirstConcat(a[1..], b, pkt);
    }
  }

  lemma {:induction false} LinesToMeaning(iface: string, srcs: seq<Prefix>, dst: Prefix, l4: L4, v: Verdict, pkt: Packet)
    requires pkt.iif == iface && WellFormed(pkt)
    ensures First(LinesTo(iface, srcs, dst, l4, v), pkt) ==
            if Sourced(srcs, pkt.src) && Contains(dst, pkt.dst) && L4Matches(l4, pkt) then Some(v) else None
  {
    if srcs == [] {
    } else {
      LinesToMeaning(iface, srcs[1..], dst, l4, v, pkt);
      SourcedHead(srcs, pkt.src);
      var head := if srcs[0].family == dst.family then [PeerLine(iface, srcs[0], Some(dst), l4, v)] else [];
      FirstConcat(head, LinesTo(iface, srcs[1..], dst, l4, v), pkt);
      if srcs[0].family == dst.family {
        assert head[1..] == [];
        assert First(head, pkt) == if Matches(head[0], pkt) then Some(v) else First([], pkt);
      }
    }
  }

  predicate Sourced(srcs: seq<Prefix>, a: Addr) {
    exists i :: 0 <= i < |srcs| && Contains(srcs[i], a)
  }

  lemma SourcedHead(srcs: seq<Prefix>, a: Addr)
    requires srcs != []
    ensures Sourced(srcs, a) <==> Contains(srcs[0], a) || Sourced(srcs[1..], a)
  {
    if Sourced(srcs, a) && !Contains(srcs[0], a) {
      var i :| 0 <= i < |srcs| && Contains(srcs[i], a);
      assert Contains(srcs[1..][i - 1], a);
    } else if Sourced(srcs[1..], a) {
      var i :| 0 <= i < |srcs[1..]| && Contains(srcs[1..][i], a);
      assert Contains(srcs[i + 1], a);
    }
  }

  lemma SourcesAreOwned(p: Peer, a: Addr)
    ensures Sourced(PeerSources(p), a) <==> Owns(p, a)
  {
    var s := PeerSources(p);
    if p.ipv4.Some? {
      HostRouteIsOneAddress(p.ipv4.value, a);
    }
    if p.ipv6.Some? {
      HostRouteIsOneAddress(p.ipv6.value, a);
    }
    if Owns(p, a) {
      if p.ipv4 == Some(a) && a.family == V4 {
        assert Contains(s[0], a);
      } else {
        assert Contains(s[|s| - 1], a);
      }
    }
  }

  /** A rule's protocol and ports: tcp and udp with an inclusive range, or any port when both bounds are 0;
      icmp over IPv4 only; icmpv6; anything else is any protocol. */
  lemma RuleL4(r: Rule, pkt: Packet)
    ensures L4Matches(L4Match(r), pkt) <==>
            && (r.protocol == "tcp" ==> pkt.proto == 6) && (r.protocol == "udp" ==> pkt.proto == 17)
            && (r.protocol == "tcp" || r.protocol == "udp" ==>
                  (r.portMin == 0 && r.portMax == 0) || r.portMin <= pkt.dport <= r.portMax)
            && (r.protocol == "icmp" ==> pkt.proto == 1 && pkt.src.family == V4)
            && (r.protocol == "icmpv6" ==> pkt.proto == 58)
  {
  }

  // ----- One peer ----------------------------------------------------------

  lemma {:induction false} RuleLinesMeaning(iface: string, srcs: seq<Prefix>, rules: seq<Rule>, pkt: Packet)
    requires pkt.iif == iface && WellFormed(pkt)
    ensures First(RuleLines(iface, srcs, rules), pkt) == if Sourced(srcs, pkt.src) then FirstRule(rules, pkt) else None
  {
    if rules == [] {
    } else {
      var r := rules[0];
      RuleLinesMeaning(iface, srcs, rules[1..], pkt);
      if r.dst.Some? && NftVerdict(r.action).Some? {
        var head := LinesTo(iface, srcs, r.dst.value, L4Match(r), NftVerdict(r.action).value);
        LinesToMeaning(iface, srcs, r.dst.value, L4Match(r), NftVerdict(r.action).value, pkt);
        FirstConcat(head, RuleLines(iface, srcs, rules[1..]), pkt);
      } else {
        FirstConcat([], RuleLines(iface, srcs, rules[1..]), pkt);
      }
    }
  }

  lemma {:induction false} DropLinesMeaning(iface: string, srcs: seq<Prefix>, dsts: seq<Prefix>, pkt: Packet)
    requires pkt.iif == iface && WellFormed(pkt)
    ensures First(DropLines(iface, srcs, dsts), pkt) ==
            if Sourced(srcs, pkt.src) && Sourced(dsts, pkt.dst) then Some(Drop) else None
  {
    if dsts == [] {
    } else {
      DropLinesMeaning(iface, srcs, dsts[1..], pkt);
      LinesToMeaning(iface, srcs, dsts[0], AnyL4, Drop, pkt);
      FirstConcat(LinesTo(iface, srcs, dsts[0], AnyL4, Drop), DropLines(iface, srcs, dsts[1..]), pkt);
      SourcedHead(dsts, pkt.dst);
    }
  }

  predicate BareCidr(cidrs: seq<Option<Prefix>>, covered: set<Prefix>, a: Addr) {
    exists i :: 0 <= i < |cidrs| && cidrs[i].Some? && cidrs[i].value !in covered && Contains(cidrs[i].value, a)
  }

  lemma BareCidrHead(cidrs: seq<Option<Prefix>>, covered: set<Prefix>, a: Addr)
    requires cidrs != []
    ensures BareCidr(cidrs, covered, a) <==>
            || (cidrs[0].Some? && cidrs[0].value !in covered && Contains(cidrs[0].value, a))
            || BareCidr(cidrs[1..], covered, a)
  {
    if BareCidr(cidrs[1..], covered, a) {
      var i :| 0 <= i < |cidrs[1..]| && cidrs[1..][i].Some? && cidrs[1..][i].value !in covered && Contains(cidrs[1..][i].value, a);
      assert cidrs[i + 1] == cidrs[1..][i];
    }
    if BareCidr(cidrs, covered, a) {
      var i :| 0 <= i < |cidrs| && cidrs[i].Some? && cidrs[i].value !in covered && Contains(cidrs[i].value, a);
      if i != 0 {
        assert cidrs[1..][i - 1] == cidrs[i];
      }
    }
  }

  lemma {:induction false} CidrLinesMeaning(
      iface: string, srcs: seq<Prefix>, cidrs: seq<Option<Prefix>>, covered: set<Prefix>, pkt: Packet)
    requires pkt.iif == iface && WellFormed(pkt)
    ensures First(CidrLines(iface, srcs, cidrs, covered), pkt) ==
            if Sourced(srcs, pkt.src) && BareCidr(cidrs, covered, pkt.dst) then Some(Accept) else None
  {
    if cidrs == [] {
    } else {
      CidrLinesMeaning(iface, srcs, cidrs[1..], covered, pkt);
      BareCidrHead(cidrs, covered, pkt.dst);
      if cidrs[0].Some? && cidrs[0].value !in covered {
        LinesToMeaning(iface, srcs, cidrs[0].value, AnyL4, Accept, pkt);
        FirstConcat(LinesTo(iface, srcs, cidrs[0].value, AnyL4, Accept), CidrLines(iface, srcs, cidrs[1..], covered), pkt);
      } else {
        FirstConcat([], CidrLines(iface, srcs, cidrs[1..], covered), pkt);
      }
    }
  }

  lemma {:induction false} DenyLinesMeaning(iface: string, srcs: seq<Prefix>, pkt: Packet)
    requires pkt.iif == iface
    ensures First(DenyLines(iface, srcs), pkt) == if Sourced(srcs, pkt.src) then Some(Drop) else None
  {
    if srcs == [] {
    } else {
      DenyLinesMeaning(iface, srcs[1..], pkt);
      SourcedHead(srcs, pkt.src);
      var d := DenyLines(iface, srcs);
      assert d[0] == PeerLine(iface, srcs[0], None, AnyL4, Drop) && d[1..] == DenyLines(iface, srcs[1..]);
    }
  }

  lemma PrefixLeIsTotal()
    ensures Order.TotalPreorder(PrefixLe)
  {
  }

  lemma CoveredOrder(p: Peer, a: Addr)
    ensures Sourced(InOrder(Covered(p.rules)), a) <==> InCovered(p, a)
  {
    var s := Covered(p.rules);
    PrefixLeIsTotal();
    Order.SortedSetIsSorted(PrefixLe, s);
    if InCovered(p, a) {
      var i :| 0 <= i < |p.rules| && IsAccept(p.rules[i]) && Contains(p.rules[i].dst.value, a);
      assert p.rules[i].dst.value in InOrder(s);
    }
    if Sourced(InOrder(s), a) {
      var i :| 0 <= i < |InOrder(s)| && Contains(InOrder(s)[i], a);
      assert InOrder(s)[i] in s;
      var r :| r in p.rules && IsAccept(r) && r.dst.value == InOrder(s)[i];
    }
  }

  /** Leaving out the covered CIDRs changes nothing: the drop layer got there first. */
  lemma CoveredCidrsAreMoot(p: Peer, a: Addr)
    requires !InCovered(p, a)
    ensures BareCidr(p.destCidrs, Covered(p.rules), a) <==> InCidrs(p, a)
  {
  }

  /** A peer's block decides exactly the peer's own packets, as its policy says. */
  lemma PeerLinesMeaning(iface: string, p: Peer, pkt: Packet)
    requires pkt.iif == iface && WellFormed(pkt)
    ensures First(PeerLines(iface, p), pkt) == if Owns(p, pkt.src) then PolicyVerdict(p, pkt) else None
  {
    var srcs, cov := PeerSources(p), Covered(p.rules);
    SourcesAreOwned(p, pkt.src);
    if !p.policyBound {
      DenyLinesMeaning(iface, srcs, pkt);
    } else {
      var a, b, c := RuleLines(iface, srcs, p.rules), DropLines(iface, srcs, InOrder(cov)), CidrLines(iface, srcs, p.destCidrs, cov);
      RuleLinesMeaning(iface, srcs, p.rules, pkt);
      DropLinesMeaning(iface, srcs, InOrder(cov), pkt);
      CidrLinesMeaning(iface, srcs, p.destCidrs, cov, pkt);
      CoveredOrder(p, pkt.dst);
      if !InCovered(p, pkt.dst) {
        CoveredCidrsAreMoot(p, pkt.dst);
      }
      FirstConcat(a + b, c, pkt);
      FirstConcat(a, b, pkt);
    }
  }

  // ----- All peers ---------------------------------------------------------

  lemma OneOwner(peers: seq<Peer>, a: Addr)
    requires DisjointAddresses(peers)
    ensures forall p, q | p in peers && q in peers && Owns(p, a) && Owns(q, a) :: p == q
  {
    forall p, q | p in peers && q in peers && Owns(p, a) && Owns(q, a) ensures p == q {
      assert SharesAddress(p, q);
    }
  }

  lemma {:induction false} AllPeerLinesMeaning(iface: string, peers: seq<Peer>, pkt: Packet)
    requires pkt.iif == iface && WellFormed(pkt) && DisjointAddresses(peers)
    ensures (forall p | p in peers :: !Owns(p, pkt.src)) ==> First(AllPeerLines(iface, peers), pkt) == None
    ensures forall p | p in peers && Owns(p, pkt.src) :: First(AllPeerLines(iface, peers), pkt) == PolicyVerdict(p, pkt)
  {
    if peers == [] {
    } else {
      AllPeerLinesMeaning(iface, peers[1..], pkt);
      PeerLinesMeaning(iface, peers[0], pkt);
      FirstConcat(PeerLines(iface, peers[0]), AllPeerLines(iface, peers[1..]), pkt);
      assert forall p :: p in peers <==> p == peers[0] || p in peers[1..];
      OneOwner(peers, pkt.src);
    }
  }

  // ----- The whole chain ---------------------------------------------------

  predicate OnTunnel(iface: string, lines: seq<Line>) {
    forall i | 0 <= i < |lines| :: lines[i].iif == If(iface)
  }

  lemma {:induction false} OffTunnelUntouched(iface: string, lines: seq<Line>, pkt: Packet)
    requires OnTunnel(iface, lines) && pkt.iif != iface
    ensures First(lines, pkt) == None
  {
    if lines != [] {
      OffTunnelUntouched(iface, lines[1..], pkt);
    }
  }

  lemma {:induction false} LinesToOnTunnel(iface: string, srcs: seq<Prefix>, dst: Prefix, l4: L4, v: Verdict)
    ensures OnTunnel(iface, LinesTo(iface, srcs, dst, l4, v))
  {
    if srcs != [] {
      LinesToOnTunnel(iface, srcs[1..], dst, l4, v);
    }
  }

  lemma {:induction false} RuleLinesOnTunnel(iface: string, srcs: seq<Prefix>, rules: seq<Rule>)
    ensures OnTunnel(iface, RuleLines(iface, srcs, rules))
  {
    if rules != [] {
      RuleLinesOnTunnel(iface, srcs, rules[1..]);
      var r := rules[0];
      if r.dst.Some? && NftVerdict(r.action).Some? {
        LinesToOnTunnel(iface, srcs, r.dst.value, L4Match(r), NftVerdict(r.action).value);
      }
    }
  }

  lemma {:induction false} DropLinesOnTunnel(iface: string, srcs: seq<Prefix>, dsts: seq<Prefix>)
    ensures OnTunnel(iface, DropLines(iface, srcs, dsts))
  {
    if dsts != [] {
      DropLinesOnTunnel(iface, srcs, dsts[1..]);
      LinesToOnTunnel(iface, srcs, dsts[0], AnyL4, Drop);
    }
  }

  lemma {:induction false} CidrLinesOnTunnel(iface: string, srcs: seq<Prefix>, cidrs: seq<Option<Prefix>>, covered: set<Prefix>)
    ensures OnTunnel(iface, CidrLines(iface, srcs, cidrs, covered))
  {
    if cidrs != [] {
      CidrLinesOnTunnel(iface, srcs, cidrs[1..], covered);
      if cidrs[0].Some? {
        LinesToOnTunnel(iface, srcs, cidrs[0].value, AnyL4, Accept);
      }
    }
  }

  lemma {:induction false} DenyLinesOnTunnel(iface: string, srcs: seq<Prefix>)
    ensures OnTunnel(iface, DenyLines(iface, srcs))
  {
    if srcs != [] {
      DenyLinesOnTunnel(iface, srcs[1..]);
    }
  }

  lemma {:induction false} AllPeerLinesOnTunnel(iface: string, peers: seq<Peer>)
    ensures OnTunnel(iface, AllPeerLines(iface, peers))
  {
    if peers != [] {
      var p := peers[0];
      AllPeerLinesOnTunnel(iface, peers[1..]);
      RuleLinesOnTunnel(iface, PeerSources(p), p.rules);
      DropLinesOnTunnel(iface, PeerSources(p), InOrder(Covered(p.rules)));
      CidrLinesOnTunnel(iface, PeerSources(p), p.destCidrs, Covered(p.rules));
      DenyLinesOnTunnel(iface, PeerSources(p));
    }
  }

  /** A line that names both ends names them in one family, as nft demands. */
  predicate OneFamily(lines: seq<Line>) {
    forall l | l in lines :: l.src.Some? && l.dst.Some? ==> l.src.value.family == l.dst.value.family
  }

  lemma {:induction false} LinesToOneFamily(iface: string, srcs: seq<Prefix>, dst: Prefix, l4: L4, v: Verdict)
    ensures OneFamily(LinesTo(iface, srcs, dst, l4, v))
  {
    if srcs != [] {
      LinesToOneFamily(iface, srcs[1..], dst, l4, v);
    }
  }

  lemma {:induction false} RuleLinesOneFamily(iface: string, srcs: seq<Prefix>, rules: seq<Rule>)
    ensures OneFamily(RuleLines(iface, srcs, rules))
  {
    if rules != [] {
      RuleLinesOneFamily(iface, srcs, rules[1..]);
      var r := rules[0];
      if r.dst.Some? && NftVerdict(r.action).Some? {
        LinesToOneFamily(iface, srcs, r.dst.value, L4Match(r), NftVerdict(r.action).value);
      }
    }
  }

  lemma {:induction false} DropLinesOneFamily(iface: string, srcs: seq<Prefix>, dsts: seq<Prefix>)
    ensures OneFamily(DropLines(iface, srcs, dsts))
  {
    if dsts != [] {
      DropLinesOneFamily(iface, srcs, dsts[1..]);
      LinesToOneFamily(iface, srcs, dsts[0], AnyL4, Drop);
    }
  }

  lemma {:induction false} CidrLinesOneFamily(iface: string, srcs: seq<Prefix>, cidrs: seq<Option<Prefix>>, covered: set<Prefix>)
    ensures OneFamily(CidrLines(iface, srcs, cidrs, covered))
  {
    if cidrs != [] {
      CidrLinesOneFamily(iface, srcs, cidrs[1..], covered);
      if cidrs[0].Some? {
        LinesToOneFamily(iface, srcs, cidrs[0].value, AnyL4, Accept);
      }
    }
  }

  lemma {:induction false} DenyLinesOneFamily(iface: string, srcs: seq<Prefix>)
    ensures OneFamily(DenyLines(iface, srcs))
  {
    if srcs != [] {
      DenyLinesOneFamily(iface, srcs[1..]);
    }
  }

  lemma {:induction false} AllPeerLinesOneFamily(iface: string, peers: seq<Peer>)
    ensures OneFamily(AllPeerLines(iface, peers))
  {
    if peers != [] {
      var p := peers[0];
      AllPeerLinesOneFamily(iface, peers[1..]);
      RuleLinesOneFamily(iface, PeerSources(p), p.rules);
      DropLinesOneFamily(iface, PeerSources(p), InOrder(Covered(p.rules)));
      CidrLinesOneFamily(iface, PeerSources(p), p.destCidrs, Covered(p.rules));
      DenyLinesOneFamily(iface, PeerSources(p));
    }
  }

  /** Every line of both chains names one family at both ends; the interface is never empty. */
  lemma ChainsAreWellFormed(peers: seq<Peer>, o: Options)
    ensures OneFamily(InputChain(peers, o)) && OneFamily(ForwardChain(peers, o))
    ensures Iface(o) == if o.wgInterface != "" then o.wgInterface else "wg0"
  {
    AllPeerLinesOneFamily(Iface(o), Order.Sort(DeviceLe, peers));
  }

  /** The blocks come in the order of device ids, each peer's once. */
  lemma BlocksInDeviceOrder(peers: seq<Peer>)
    ensures var sorted := Order.Sort(DeviceLe, peers);
            && multiset(sorted) == multiset(peers)
            && forall i, j | 0 <= i < j < |sorted| :: Order.TextLe(sorted[i].deviceId, sorted[j].deviceId)
  {
    DeviceLeIsTotal();
    Order.SortSorts(DeviceLe, peers);
    var sorted := Order.Sort(DeviceLe, peers);
    forall i, j | 0 <= i < j < |sorted| ensures Order.TextLe(sorted[i].deviceId, sorted[j].deviceId) {
      assert DeviceLe(sorted[i], sorted[j]);
    }
  }

  lemma DeviceLeIsTotal()
    ensures Order.TotalPreorder(DeviceLe)
  {
    Order.TextLeIsTotal();
  }

  lemma SortKeepsPeers(peers: seq<Peer>)
    ensures forall p :: p in Order.Sort(DeviceLe, peers) <==> p in peers
  {
    DeviceLeIsTotal();
    Order.SortSorts(DeviceLe, peers);
    forall p ensures p in Order.Sort(DeviceLe, peers) <==> p in peers {
      assert p in multiset(Order.Sort(DeviceLe, peers)) <==> p in multiset(peers);
    }
  }

  /** Fixed lines before and after the peers' blocks. */
  lemma ChainParts(prelude: seq<Line>, body: seq<Line>, log: seq<Line>, last: Line, pkt: Packet)
    requires log == [] || (|log| == 1 && log[0].outcome == Log)
    ensures First(prelude + body + log + [last], pkt) ==
            if First(prelude, pkt).Some? then First(prelude, pkt)
            else if First(body, pkt).Some? then First(body, pkt)
            else First([last], pkt)
  {
    FirstConcat(prelude + body + log, [last], pkt);
    FirstConcat(prelude + body, log, pkt);
    FirstConcat(prelude, body, pkt);
  }

  /**
   * The forward chain on every packet. From the tunnel: invalid packets are
   * dropped, any other packet gets the verdict of the peer owning its source,
   * and is dropped when there is none or its policy is silent. Towards the
   * tunnel: replies only. Elsewhere: everything that is not invalid.
   */
  lemma ForwardMeaning(peers: seq<Peer>, o: Options, pkt: Packet)
    requires DisjointAddresses(peers) && WellFormed(pkt)
    ensures var v := Evaluate(ForwardChain(peers, o), pkt, Drop);
            if pkt.iif == Iface(o) then
              && (pkt.ct == Invalid ==> v == Drop)
              && ((forall p | p in peers :: !Owns(p, pkt.src)) ==> v == Drop)
              && (forall p | p in peers && Owns(p, pkt.src) && pkt.ct != Invalid ::
                    Some(v) == if PolicyVerdict(p, pkt).Some? then PolicyVerdict(p, pkt) else Some(Drop))
            else if pkt.oif == Iface(o) then
              v == if pkt.ct == Established || pkt.ct == Related then Accept else Drop
            else
              v == if pkt.ct == Invalid then Drop else Accept
  {
    var iface := Iface(o);
    var sorted := Order.Sort(DeviceLe, peers);
    var prelude := [ Plain(NotIf(iface), If(iface), ReplyCt, Final(Accept)),
                     Plain(AnyIf, AnyIf, InvalidCt, Final(Drop)),
                     Plain(NotIf(iface), NotIf(iface), AnyCt, Final(Accept)) ];
    var log := if o.logDenied then [Plain(If(iface), AnyIf, AnyCt, Log)] else [];
    var last := Plain(If(iface), AnyIf, AnyCt, Final(Drop));
    ChainParts(prelude, AllPeerLines(iface, sorted), log, last, pkt);
    FirstOfThree(prelude, pkt);
    SortKeepsPeers(peers);
    assert [last][1..] == [];
    if pkt.iif == iface {
      AllPeerLinesMeaning(iface, sorted, pkt);
    } else {
      AllPeerLinesOnTunnel(iface, sorted);
      OffTunnelUntouched(iface, AllPeerLines(iface, sorted), pkt);
    }
  }

  lemma FirstOfThree(c: seq<Line>, pkt: Packet)
    requires |c| == 3 && c[0].outcome.Final? && c[1].outcome.Final? && c[2].outcome.Final?
    ensures First(c, pkt) ==
            if Matches(c[0], pkt) then Some(c[0].outcome.verdict)
            else if Matches(c[1], pkt) then Some(c[1].outcome.verdict)
            else if Matches(c[2], pkt) then Some(c[2].outcome.verdict)
            else None
  {
    var d := c[1..];
    var e := d[1..];
    assert d[0] == c[1] && e[0] == c[2] && e[1..] == [];
    assert First(e, pkt) == if Matches(c[2], pkt) then Some(c[2].outcome.verdict) else None;
    assert First(d, pkt) == if Matches(c[1], pkt) then Some(c[1].outcome.verdict) else First(e, pkt);
  }

  /** First match over denials-first rules is "any denial wins". */
  lemma {:induction false} DenyOverrides(rules: seq<Rule>, pkt: Packet)
    requires DenyFirst(rules)
    ensures FirstRule(rules, pkt) == Some(Accept) <==>
            && (forall i | 0 <= i < |rules| && RuleApplies(rules[i], pkt) :: IsAccept(rules[i]))
            && (exists i :: 0 <= i < |rules| && RuleApplies(rules[i], pkt))
    ensures FirstRule(rules, pkt) == None <==> forall i | 0 <= i < |rules| :: !RuleApplies(rules[i], pkt)
  {
    if rules == [] {
    } else {
      var t := rules[1..];
      DenyOverrides(t, pkt);
      assert forall i | 1 <= i < |rules| :: rules[i] == t[i - 1];
      assert forall i | 0 <= i < |t| :: t[i] == rules[i + 1];
    }
  }

  /**
   * The main theorem: a packet from the tunnel is accepted exactly when its
   * source belongs to a policy-bound peer, no denial of that peer applies, and
   * an accept rule applies or the destination lies in a bare CIDR outside every
   * accept-covered prefix.
   */
  lemma AcceptsExactlyThePolicy(peers: seq<Peer>, o: Options, pkt: Packet)
    requires DisjointAddresses(peers) && WellFormed(pkt)
    requires forall p | p in peers :: DenyFirst(p.rules)
    requires pkt.iif == Iface(o) && pkt.ct != Invalid
    ensures Evaluate(ForwardChain(peers, o), pkt, Drop) == Accept <==>
            exists p :: p in peers && Owns(p, pkt.src) && Permits(p, pkt)
  {
    ForwardMeaning(peers, o, pkt);
    forall p | p in peers && Owns(p, pkt.src)
      ensures PolicyVerdict(p, pkt) == Some(Accept) <==> Permits(p, pkt)
    {
      DenyOverrides(p.rules, pkt);
    }
    OneOwner(peers, pkt.src);
  }

  /** Services on the gateway itself: the input chain applies the same policy. */
  lemma InputAppliesSamePolicy(peers: seq<Peer>, o: Options, pkt: Packet)
    requires DisjointAddresses(peers) && WellFormed(pkt)
    ensures pkt.iif == Iface(o) ==>
              Evaluate(InputChain(peers, o), pkt, Accept) == Evaluate(ForwardChain(peers, o), pkt, Drop)
    ensures pkt.iif != Iface(o) ==> Evaluate(InputChain(peers, o), pkt, Accept) == Accept
  {
    var iface := Iface(o);
    var sorted := Order.Sort(DeviceLe, peers);
    var prelude := [Plain(NotIf(iface), AnyIf, AnyCt, Final(Accept)), Plain(AnyIf, AnyIf, InvalidCt, Final(Drop))];
    var last := Plain(If(iface), AnyIf, AnyCt, Final(Drop));
    assert InputChain(peers, o) == prelude + AllPeerLines(iface, sorted) + [] + [last];
    ChainParts(prelude, AllPeerLines(iface, sorted), [], last, pkt);
    var second := prelude[1..];
    assert second[0] == prelude[1] && second[1..] == [] && [last][1..] == [];
    assert First(second, pkt) == if pkt.ct == Invalid then Some(Drop) else None;
    SortKeepsPeers(peers);
    ForwardMeaning(peers, o, pkt);
    if pkt.iif == iface {
      AllPeerLinesMeaning(iface, sorted, pkt);
    }
  }
}
