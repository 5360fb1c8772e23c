/** The renderer as the agent runs it: loops appending to a builder. */
module FirewallRender {
  import opened Net
  import opened Firewall
  import opened FirewallMeaning
  import Order
  import opened Seqs

  method EmitTo(iface: string, srcs: seq<Prefix>, dst: Prefix, l4: L4, v: Verdict) returns (out: seq<Line>)
    ensures out == LinesTo(iface, srcs, dst, l4, v)
  {
    out := [];
    for i := 0 to |srcs|
      invariant out + LinesTo(iface, srcs[i..], dst, l4, v) == LinesTo(iface, srcs, dst, l4, v)
    {
      Suffix(srcs, i);
      if srcs[i].family == dst.family {
        Assoc(out, [PeerLine(iface, srcs[i], Some(dst), l4, v)], LinesTo(iface, srcs[i + 1..], dst, l4, v));
        out := out + [PeerLine(iface, srcs[i], Some(dst), l4, v)];
      } else {
        assert LinesTo(iface, srcs[i..], dst, l4, v) == LinesTo(iface, srcs[i + 1..], dst, l4, v);
      }
    }
  }

  /** Map iteration order is arbitrary; sorting makes the result a function of the set. */
  method SortCovered(covered: set<Prefix>) returns (sorted: seq<Prefix>)
    ensures sorted == InOrder(covered)
  {
    var keys: seq<Prefix>, left := [], covered;
    while left != {}
      invariant left <= covered && multiset(keys) + multiset(left) == multiset(covered)
      decreases |left|
    {
      var k :| k in left;
      assert left == (left - {k}) + {k};
      keys, left := keys + [k], left - {k};
    }
    sorted := Order.Sort(PrefixLe, keys);
    PrefixLeIsTotal();
    Order.AnyOrderSorts(PrefixLe, keys, covered);
  }

  method WriteDenials(src: seq<Prefix>, iface: string) returns (out: seq<Line>)
    ensures out == DenyLines(iface, src)
  {
    out := [];
    for i := 0 to |src|
      invariant out + DenyLines(iface, src[i..]) == DenyLines(iface, src)
    {
      assert src[i..][1..] == src[i + 1..];
      out := out + [PeerLine(iface, src[i], None, AnyL4, Drop)];
    }
  }

  method WriteRule(src: seq<Prefix>, r: Rule, iface: string) returns (out: seq<Line>, accepted: set<Prefix>)
    ensures out == RuleBlock(iface, src, r)
    ensures accepted == if IsAccept(r) then {r.dst.value} else {}
  {
    out, accepted := [], {};
    if r.dst.None? || NftVerdict(r.action).None? {
      return;
    }
    if NftVerdict(r.action) == Some(Accept) {
      accepted := {r.dst.value};
    }
    out := EmitTo(iface, src, r.dst.value, L4Match(r), NftVerdict(r.action).value);
  }

  lemma RulesStep(iface: string, src: seq<Prefix>, rules: seq<Rule>, i: nat)
    requires i < |rules|
    ensures RuleLines(iface, src, rules[i..]) == RuleBlock(iface, src, rules[i]) + RuleLines(iface, src, rules[i + 1..])
    ensures Covered(rules[..i + 1]) == Covered(rules[..i]) + if IsAccept(rules[i]) then {rules[i].dst.value} else {}
  {
    assert rules[i..][0] == rules[i] && rules[i..][1..] == rules[i + 1..];
    assert rules[..i + 1] == rules[..i] + [rules[i]];
  }

  /** The L4 rules in the order given, collecting the destinations they accept. */
  method WriteRules(src: seq<Prefix>, rules: seq<Rule>, iface: string) returns (out: seq<Line>, covered: set<Prefix>)
    ensures out == RuleLines(iface, src, rules)
    ensures covered == Covered(rules)
  {
    out, covered := [], {};
    for i := 0 to |rules|
      invariant out + RuleLines(iface, src, rules[i..]) == RuleLines(iface, src, rules)
      invariant covered == Covered(rules[..i])
    {
      RulesStep(iface, src, rules, i);
      var lines, accepted := WriteRule(src, rules[i], iface);
      Assoc(out, lines, RuleLines(iface, src, rules[i + 1..]));
      out, covered := out + lines, covered + accepted;
    }
    assert rules[..|rules|] == rules;
  }

  method WriteDrops(src: seq<Prefix>, prefixes: seq<Prefix>, iface: string) returns (out: seq<Line>)
    ensures out == DropLines(iface, src, prefixes)
  {
    out := [];
    for i := 0 to |prefixes|
      invariant out + DropLines(iface, src, prefixes[i..]) == DropLines(iface, src, prefixes)
    {
      Suffix(prefixes, i);
      var lines := EmitTo(iface, src, prefixes[i], AnyL4, Drop);
      Assoc(out, lines, DropLines(iface, src, prefixes[i + 1..]));
      out := out + lines;
    }
  }

  predicate Skipped(cidr: Option<Prefix>, covered: set<Prefix>) {
    cidr.None? || cidr.value in covered
  }

  lemma CidrSkipped(iface: string, src: seq<Prefix>, cidrs: seq<Option<Prefix>>, covered: set<Prefix>, i: nat)
    requires i < |cidrs| && Skipped(cidrs[i], covered)
    ensures CidrLines(iface, src, cidrs[i..], covered) == CidrLines(iface, src, cidrs[i + 1..], covered)
  {
    Suffix(cidrs, i);
  }

  lemma CidrWritten(iface: string, src: seq<Prefix>, cidrs: seq<Option<Prefix>>, covered: set<Prefix>, i: nat, out: seq<Line>)
    requires i < |cidrs| && !Skipped(cidrs[i], covered)
    ensures out + CidrLines(iface, src, cidrs[i..], covered)
         == (out + LinesTo(iface, src, cidrs[i].value, AnyL4, Accept)) + CidrLines(iface, src, cidrs[i + 1..], covered)
  {
    Suffix(cidrs, i);
    Assoc(out, LinesTo(iface, src, cidrs[i].value, AnyL4, Accept), CidrLines(iface, src, cidrs[i + 1..], covered));
  }

  method WriteCidrs(src: seq<Prefix>, cidrs: seq<Option<Prefix>>, covered: set<Prefix>, iface: string) returns (out: seq<Line>)
    ensures out == CidrLines(iface, src, cidrs, covered)
  {
    out := [];
    for i := 0 to |cidrs|
      invariant out + CidrLines(iface, src, cidrs[i..], covered) == CidrLines(iface, src, cidrs, covered)
    {
      if Skipped(cidrs[i], covered) {
        CidrSkipped(iface, src, cidrs, covered, i);
        continue;
      }
      CidrWritten(iface, src, cidrs, covered, i, out);
      var lines := EmitTo(iface, src, cidrs[i].value, AnyL4, Accept);
      out := out + lines;
    }
  }

  method WritePeerRules(p: Peer, iface: string) returns (out: seq<Line>)
    ensures out == PeerLines(iface, p)
  {
    var src := PeerSources(p);
    if !p.policyBound {
      out := WriteDenials(src, iface);
      return;
    }
    var rules, covered := WriteRules(src, p.rules, iface);
    var prefixes := SortCovered(covered);
    var drops := WriteDrops(src, prefixes, iface);
    var cidrs := WriteCidrs(src, p.destCidrs, covered, iface);
    out := rules + drops + cidrs;
  }

  method WriteAllPeers(sorted: seq<Peer>, iface: string) returns (out: seq<Line>)
    ensures out == AllPeerLines(iface, sorted)
  {
    out := [];
    for i := 0 to |sorted|
      invariant out + AllPeerLines(iface, sorted[i..]) == AllPeerLines(iface, sorted)
    {
      Suffix(sorted, i);
      var lines := WritePeerRules(sorted[i], iface);
      Assoc(out, lines, AllPeerLines(iface, sorted[i + 1..]));
      out := out + lines;
    }
  }

  method RenderFilter(peers: seq<Peer>, o: Options) returns (input: seq<Line>, forward: seq<Line>)
    ensures input == InputChain(peers, o)
    ensures forward == ForwardChain(peers, o)
  {
    var iface := Iface(o);
    var sorted := Order.Sort(DeviceLe, peers);
    var block := WriteAllPeers(sorted, iface);
    input := [Plain(NotIf(iface), AnyIf, AnyCt, Final(Accept)), Plain(AnyIf, AnyIf, InvalidCt, Final(Drop))]
      + block + [Plain(If(iface), AnyIf, AnyCt, Final(Drop))];
    var log := if o.logDenied then [Plain(If(iface), AnyIf, AnyCt, Log)] else [];
    forward := [
      Plain(NotIf(iface), If(iface), ReplyCt, Final(Accept)),
      Plain(AnyIf, AnyIf, InvalidCt, Final(Drop)),
      Plain(NotIf(iface), NotIf(iface), AnyCt, Final(Accept))]
      + block + log + [Plain(If(iface), AnyIf, AnyCt, Final(Drop))];
  }

  method WriteRewrites(ipv4: Addr, rewrites: seq<Rewrite>) returns (out: seq<DnatLine>)
    ensures out == RewriteLines(ipv4, rewrites)
  {
    out := [];
    for i := 0 to |rewrites|
      invariant out + RewriteLines(ipv4, rewrites[i..]) == RewriteLines(ipv4, rewrites)
    {
      Suffix(rewrites, i);
      var line := DnatLine("wg0", ipv4, rewrites[i].virtualIp, rewrites[i].realIp);
      Assoc(out, [line], RewriteLines(ipv4, rewrites[i + 1..]));
      out := out + [line];
    }
  }

  method RenderPrerouting(peers: seq<Peer>) returns (out: seq<DnatLine>)
    ensures out == Prerouting(peers)
  {
    out := [];
    for i := 0 to |peers|
      invariant out + Prerouting(peers[i..]) == Prerouting(peers)
    {
      Suffix(peers, i);
      if peers[i].ipv4.None? {
        assert Prerouting(peers[i..]) == Prerouting(peers[i + 1..]);
        continue;
      }
      var lines := WriteRewrites(peers[i].ipv4.value, peers[i].rewrites);
      Assoc(out, lines, Prerouting(peers[i + 1..]));
      out := out + lines;
    }
  }

  method WriteMasquerades(ipv4: Option<Addr>, cidrs: seq<Prefix>) returns (out: seq<MasqLine>)
    ensures out == if ipv4.Some? then MasqLines(ipv4.value, cidrs) else []
  {
    out := [];
    for i := 0 to |cidrs|
      invariant ipv4.None? ==> out == []
      invariant ipv4.Some? ==> out + MasqLines(ipv4.value, cidrs[i..]) == MasqLines(ipv4.value, cidrs)
    {
      if ipv4.None? {
        continue;
      }
      Suffix(cidrs, i);
      Assoc(out, [MasqLine(ipv4.value, cidrs[i])], MasqLines(ipv4.value, cidrs[i + 1..]));
      out := out + [MasqLine(ipv4.value, cidrs[i])];
    }
  }

  method RenderPostrouting(peers: seq<Peer>) returns (out: seq<MasqLine>)
    ensures out == Postrouting(peers)
  {
    out := [];
    for i := 0 to |peers|
      invariant out + Postrouting(peers[i..]) == Postrouting(peers)
    {
      Suffix(peers, i);
      var lines := WriteMasquerades(peers[i].ipv4, peers[i].natCidrs);
      Assoc(out, lines, Postrouting(peers[i + 1..]));
      out := out + lines;
    }
  }

  /** One whole `nft -f` script: filter chains over the sorted copy, NAT chains in list order. */
  method RenderScript(peers: seq<Peer>, o: Options) returns (r: Ruleset)
    ensures r == Render(peers, o)
  {
    var input, forward := RenderFilter(peers, o);
    var prerouting := RenderPrerouting(peers);
    var postrouting := RenderPostrouting(peers);
    r := Ruleset(input, forward, prerouting, postrouting);
  }
}
