/**
 * The policy compiler of the gateway agent: a peer list becomes nftables
 * chains. Rules are kept as syntax trees, chains as sequences, and the kernel
 * is a first-match evaluator over abstract packets.
 */
module Firewall {
  import opened Net
  import Order

  // ----- Input: what GET /node/peers returned -----------------------------

  /** `dst` is None when the text does not parse as a prefix. */
  datatype Rule = Rule(action: string, dst: Option<Prefix>, protocol: string, portMin: nat, portMax: nat)

  datatype Rewrite = Rewrite(virtualIp: Addr, realIp: Addr)

  /** An address is None when its text is empty or does not parse. */
  datatype Peer = Peer(
    deviceId: string, publicKey: string, psk: string,
    ipv4: Option<Addr>, ipv6: Option<Addr>, policyBound: bool,
    destCidrs: seq<Option<Prefix>>, rules: seq<Rule>,
    natCidrs: seq<Prefix>, rewrites: seq<Rewrite>)

  datatype Options = Options(wgInterface: string, logDenied: bool)

  // ----- Output: the ruleset ----------------------------------------------

  datatype Verdict = Accept | Reject | Drop

  datatype IfMatch = AnyIf | If(name: string) | NotIf(name: string)

  datatype CtMatch = AnyCt | InvalidCt | ReplyCt

  /** The L4 part of a rule; protocols by their IANA number. */
  datatype L4 = AnyL4 | L4Proto(proto: nat) | Dport(proto: nat, lo: nat, hi: nat) | Ipv4Proto(proto: nat)

  /** A log statement does not end the evaluation. */
  datatype Outcome = Final(verdict: Verdict) | Log

  datatype Line = Line(
    iif: IfMatch, oif: IfMatch, ct: CtMatch,
    src: Option<Prefix>, dst: Option<Prefix>, l4: L4, outcome: Outcome)

  datatype DnatLine = DnatLine(iif: string, src: Addr, dst: Addr, to: Addr)

  datatype MasqLine = MasqLine(src: Addr, dst: Prefix)

  datatype Ruleset = Ruleset(
    input: seq<Line>, forward: seq<Line>, prerouting: seq<DnatLine>, postrouting: seq<MasqLine>)

  // ----- The kernel --------------------------------------------------------

  datatype Conntrack = New | Established | Related | Invalid

  datatype Packet = Packet(
    iif: string, oif: string, ct: Conntrack, src: Addr, dst: Addr, proto: nat, dport: nat)

  predicate IfMatches(m: IfMatch, name: string) {
    match m
    case AnyIf => true
    case If(n) => name == n
    case NotIf(n) => name != n
  }

  predicate CtMatches(m: CtMatch, c: Conntrack) {
    match m
    case AnyCt => true
    case InvalidCt => c == Invalid
    case ReplyCt => c == Established || c == Related
  }

  predicate L4Matches(m: L4, pkt: Packet) {
    match m
    case AnyL4 => true
    case L4Proto(n) => pkt.proto == n
    case Dport(n, lo, hi) => pkt.proto == n && lo <= pkt.dport <= hi
    case Ipv4Proto(n) => pkt.src.family == V4 && pkt.proto == n
  }

  predicate Within(p: Option<Prefix>, a: Addr) {
    p.Some? ==> Contains(p.value, a)
  }

  predicate Matches(l: Line, pkt: Packet) {
    && IfMatches(l.iif, pkt.iif) && IfMatches(l.oif, pkt.oif) && CtMatches(l.ct, pkt.ct)
    && Within(l.src, pkt.src) && Within(l.dst, pkt.dst) && L4Matches(l.l4, pkt)
  }

  /** The verdict of the first line that decides, if any does. */
  function First(chain: seq<Line>, pkt: Packet): Option<Verdict> {
    if chain == [] then None
    else if Matches(chain[0], pkt) && chain[0].outcome.Final? then Some(chain[0].outcome.verdict)
    else First(chain[1..], pkt)
  }

  function Evaluate(chain: seq<Line>, pkt: Packet, policy: Verdict): Verdict {
    match First(chain, pkt)
    case Some(v) => v
    case None => policy
  }

  /** Where the first matching line of a prerouting chain sends the packet. */
  function DnatTarget(chain: seq<DnatLine>, pkt: Packet): Option<Addr> {
    if chain == [] then None
    else if pkt.iif == chain[0].iif && pkt.src == chain[0].src && pkt.dst == chain[0].dst then Some(chain[0].to)
    else DnatTarget(chain[1..], pkt)
  }

  function Dnat(chain: seq<DnatLine>, pkt: Packet): Packet {
    match DnatTarget(chain, pkt)
    case Some(to) => pkt.(dst := to)
    case None => pkt
  }

  predicate Masqueraded(chain: seq<MasqLine>, pkt: Packet) {
    exists i :: 0 <= i < |chain| && pkt.src == chain[i].src && Contains(chain[i].dst, pkt.dst)
  }

  // ----- The compiler, as functions ----------------------------------------

  function NftVerdict(action: string): Option<Verdict> {
    if action == "accept" then Some(Accept)
    else if action == "reject" then Some(Reject)
    else if action == "drop" then Some(Drop)
    else None
  }

  function L4Match(r: Rule): L4 {
    if r.protocol == "tcp" || r.protocol == "udp" then
      var n := if r.protocol == "tcp" then 6 else 17;
      if r.portMin == 0 && r.portMax == 0 then L4Proto(n) else Dport(n, r.portMin, r.portMax)
    else if r.protocol == "icmp" then Ipv4Proto(1)
    else if r.protocol == "icmpv6" then L4Proto(58)
    else AnyL4
  }

  function PeerSources(p: Peer): seq<Prefix> {
    (if p.ipv4.Some? && p.ipv4.value.family == V4 then [HostRoute(p.ipv4.value)] else []) +
    (if p.ipv6.Some? && p.ipv6.value.family == V6 then [HostRoute(p.ipv6.value)] else [])
  }

  function PeerLine(iface: string, src: Prefix, dst: Option<Prefix>, l4: L4, v: Verdict): Line {
    Line(If(iface), AnyIf, AnyCt, Some(src), dst, l4, Final(v))
  }

  /** One line per source of the destination's family. */
  function LinesTo(iface: string, srcs: seq<Prefix>, dst: Prefix, l4: L4, v: Verdict): seq<Line> {
    if srcs == [] then []
    else (if srcs[0].family == dst.family then [PeerLine(iface, srcs[0], Some(dst), l4, v)] else [])
         + LinesTo(iface, srcs[1..], dst, l4, v)
  }

  /** One rule for every source; unparseable or unknown rules are skipped. */
  function RuleBlock(iface: string, srcs: seq<Prefix>, r: Rule): seq<Line> {
    if r.dst.Some? && NftVerdict(r.action).Some?
    then LinesTo(iface, srcs, r.dst.value, L4Match(r), NftVerdict(r.action).value)
    else []
  }

  function RuleLines(iface: string, srcs: seq<Prefix>, rules: seq<Rule>): seq<Line> {
    if rules == [] then [] else RuleBlock(iface, srcs, rules[0]) + RuleLines(iface, srcs, rules[1..])
  }

  predicate IsAccept(r: Rule) {
    r.dst.Some? && NftVerdict(r.action) == Some(Accept)
  }

  /** The destinations some accept rule names. */
  function Covered(rules: seq<Rule>): set<Prefix> {
    set r | r in rules && IsAccept(r) :: r.dst.value
  }

  function DropLines(iface: string, srcs: seq<Prefix>, dsts: seq<Prefix>): seq<Line> {
    if dsts == [] then []
    else LinesTo(iface, srcs, dsts[0], AnyL4, Drop) + DropLines(iface, srcs, dsts[1..])
  }

  function CidrLines(iface: string, srcs: seq<Prefix>, cidrs: seq<Option<Prefix>>, covered: set<Prefix>): seq<Line> {
    if cidrs == [] then []
    else
      (if cidrs[0].Some? && cidrs[0].value !in covered
       then LinesTo(iface, srcs, cidrs[0].value, AnyL4, Accept) else [])
      + CidrLines(iface, srcs, cidrs[1..], covered)
  }

  function DenyLines(iface: string, srcs: seq<Prefix>): seq<Line> {
    if srcs == [] then []
    else [PeerLine(iface, srcs[0], None, AnyL4, Drop)] + DenyLines(iface, srcs[1..])
  }

  /** A fixed order for the covered prefixes, so that equal input renders equally. */
  predicate PrefixLe(a: Prefix, b: Prefix) {
    if a.family != b.family then a.family == V4
    else a.value < b.value || (a.value == b.value && a.bits <= b.bits)
  }

  ghost function InOrder(s: set<Prefix>): seq<Prefix> {
    Order.SortedSet(PrefixLe, s)
  }

  ghost function PeerLines(iface: string, p: Peer): seq<Line> {
    var srcs := PeerSources(p);
    if !p.policyBound then DenyLines(iface, srcs)
    else RuleLines(iface, srcs, p.rules)
         + DropLines(iface, srcs, InOrder(Covered(p.rules)))
         + CidrLines(iface, srcs, p.destCidrs, Covered(p.rules))
  }

  ghost function AllPeerLines(iface: string, peers: seq<Peer>): seq<Line> {
    if peers == [] then [] else PeerLines(iface, peers[0]) + AllPeerLines(iface, peers[1..])
  }

  predicate DeviceLe(a: Peer, b: Peer) {
    Order.TextLe(a.deviceId, b.deviceId)
  }

  function Iface(o: Options): string {
    if o.wgInterface == "" then "wg0" else o.wgInterface
  }

  function Plain(iif: IfMatch, oif: IfMatch, ct: CtMatch, out: Outcome): Line {
    Line(iif, oif, ct, None, None, AnyL4, out)
  }

  ghost function InputChain(peers: seq<Peer>, o: Options): seq<Line> {
    [Plain(NotIf(Iface(o)), AnyIf, AnyCt, Final(Accept)), Plain(AnyIf, AnyIf, InvalidCt, Final(Drop))]
    + AllPeerLines(Iface(o), Order.Sort(DeviceLe, peers))
    + [Plain(If(Iface(o)), AnyIf, AnyCt, Final(Drop))]
  }

  ghost function ForwardChain(peers: seq<Peer>, o: Options): seq<Line> {
    [ Plain(NotIf(Iface(o)), If(Iface(o)), ReplyCt, Final(Accept)),
      Plain(AnyIf, AnyIf, InvalidCt, Final(Drop)),
      Plain(NotIf(Iface(o)), NotIf(Iface(o)), AnyCt, Final(Accept)) ]
    + AllPeerLines(Iface(o), Order.Sort(DeviceLe, peers))
    + (if o.logDenied then [Plain(If(Iface(o)), AnyIf, AnyCt, Log)] else [])
    + [Plain(If(Iface(o)), AnyIf, AnyCt, Final(Drop))]
  }

  function RewriteLines(src: Addr, rewrites: seq<Rewrite>): seq<DnatLine> {
    if rewrites == [] then []
    else [DnatLine("wg0", src, rewrites[0].virtualIp, rewrites[0].realIp)] + RewriteLines(src, rewrites[1..])
  }

  function Prerouting(peers: seq<Peer>): seq<DnatLine> {
    if peers == [] then []
    else (if peers[0].ipv4.Some? then RewriteLines(peers[0].ipv4.value, peers[0].rewrites) else [])
         + Prerouting(peers[1..])
  }

  function MasqLines(src: Addr, cidrs: seq<Prefix>): seq<MasqLine> {
    if cidrs == [] then [] else [MasqLine(src, cidrs[0])] + MasqLines(src, cidrs[1..])
  }

  function Postrouting(peers: seq<Peer>): seq<MasqLine> {
    if peers == [] then []
    else (if peers[0].ipv4.Some? then MasqLines(peers[0].ipv4.value, peers[0].natCidrs) else [])
         + Postrouting(peers[1..])
  }

  ghost function Render(peers: seq<Peer>, o: Options): Ruleset {
    Ruleset(InputChain(peers, o), ForwardChain(peers, o), Prerouting(peers), Postrouting(peers))
  }

  // ----- What the compiled policy is supposed to mean ----------------------

  predicate RuleApplies(r: Rule, pkt: Packet) {
    && r.dst.Some? && NftVerdict(r.action).Some?
    && Contains(r.dst.value, pkt.dst) && L4Matches(L4Match(r), pkt)
  }

  function FirstRule(rules: seq<Rule>, pkt: Packet): Option<Verdict> {
    if rules == [] then None
    else if RuleApplies(rules[0], pkt) then NftVerdict(rules[0].action)
    else FirstRule(rules[1..], pkt)
  }

  predicate InCovered(p: Peer, a: Addr) {
    exists i :: 0 <= i < |p.rules| && IsAccept(p.rules[i]) && Contains(p.rules[i].dst.value, a)
  }

  predicate InCidrs(p: Peer, a: Addr) {
    exists i :: 0 <= i < |p.destCidrs| && p.destCidrs[i].Some? && Contains(p.destCidrs[i].value, a)
  }

  /** A peer's policy on one packet of its own; None means it says nothing. */
  function PolicyVerdict(p: Peer, pkt: Packet): Option<Verdict> {
    if !p.policyBound then Some(Drop)
    else if FirstRule(p.rules, pkt).Some? then FirstRule(p.rules, pkt)
    else if InCovered(p, pkt.dst) then Some(Drop)
    else if InCidrs(p, pkt.dst) then Some(Accept)
    else None
  }

  predicate Owns(p: Peer, a: Addr) {
    (p.ipv4 == Some(a) && a.family == V4) || (p.ipv6 == Some(a) && a.family == V6)
  }

  predicate SharesAddress(p: Peer, q: Peer) {
    || (p.ipv4.Some? && (p.ipv4 == q.ipv4 || p.ipv4 == q.ipv6))
    || (p.ipv6.Some? && (p.ipv6 == q.ipv4 || p.ipv6 == q.ipv6))
  }

  /** No tunnel address appears in two different entries of the list. */
  predicate DisjointAddresses(peers: seq<Peer>) {
    forall p, q | p in peers && q in peers && p != q :: !SharesAddress(p, q)
  }

  /** A device id names one entry of the list. */
  predicate DistinctDevices(peers: seq<Peer>) {
    forall p, q | p in peers && q in peers && p.deviceId == q.deviceId :: p == q
  }

  /** Every denial comes before every accept, the controller's rule order. */
  predicate DenyFirst(rules: seq<Rule>) {
    forall i, j | 0 <= i < j < |rules| ::
      NftVerdict(rules[i].action) == Some(Accept) ==> NftVerdict(rules[j].action) in {None, Some(Accept)}
  }

  predicate Denied(p: Peer, pkt: Packet) {
    exists i :: 0 <= i < |p.rules| && RuleApplies(p.rules[i], pkt) && !IsAccept(p.rules[i])
  }

  predicate Allowed(p: Peer, pkt: Packet) {
    exists i :: 0 <= i < |p.rules| && RuleApplies(p.rules[i], pkt) && IsAccept(p.rules[i])
  }

  /** Deny overrides; otherwise an accept rule or an uncovered bare CIDR permits. */
  predicate Permits(p: Peer, pkt: Packet) {
    && p.policyBound
    && !Denied(p, pkt)
    && (Allowed(p, pkt) || (InCidrs(p, pkt.dst) && !InCovered(p, pkt.dst)))
  }

  predicate WellFormed(pkt: Packet) {
    pkt.src.family == pkt.dst.family
  }
}
