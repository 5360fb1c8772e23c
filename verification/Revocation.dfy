/**
 * The whole chain for one device: from the key rows of the controller to the
 * kernel of the gateway, and what a revocation takes away at the next sync.
 */
module Revocation {
  import opened Net
  import opened Firewall
  import opened FirewallMeaning
  import Controller
  import PolicyChain
  import opened Devices
  import opened Lifecycle
  import Syncer

  /** Everything else /node/peers reads, and the devices whose expiry and posture checks pass. */
  datatype Facts = Facts(
    policies: Controller.Tables, tenant: string, group: map<string, string>, members: map<string, set<string>>,
    psks: map<string, string>, ruleRows: map<string, seq<Controller.RuleRow>>, admitted: set<string>)

  predicate Listed(t: Tables, f: Facts, k: KeyRow) {
    && !k.revoked && k.device in t.devices
    && !t.devices[k.device].deleted && t.devices[k.device].status == Active && k.device in f.admitted
  }

  function PeerOf(t: Tables, f: Facts, k: KeyRow): Peer
    requires k.device in t.devices
  {
    Controller.NodePeer(f.policies, DeviceOf(t, f, k), RowsFor(f, k.device))
  }

  function DeviceOf(t: Tables, f: Facts, k: KeyRow): Controller.Device
    requires k.device in t.devices
  {
    Controller.Device(
      k.device, f.tenant, t.devices[k.device].policy,
      if k.device in f.group then Some(f.group[k.device]) else None,
      if k.device in f.members then f.members[k.device] else {},
      k.publicKey, if k.publicKey in f.psks then f.psks[k.publicKey] else "",
      Some(Addr(V4, k.ipv4)), if k.ipv6.Some? then Some(Addr(V6, k.ipv6.value)) else None)
  }

  function RowsFor(f: Facts, id: string): seq<Controller.RuleRow> {
    if id in f.ruleRows then f.ruleRows[id] else []
  }

  /** The peer list: active devices joined to their unrevoked keys. */
  function NodePeers(t: Tables, f: Facts, keys: seq<KeyRow>): seq<Peer> {
    if keys == [] then []
    else
      var last := keys[|keys| - 1];
      NodePeers(t, f, keys[..|keys| - 1]) + if Listed(t, f, last) then [PeerOf(t, f, last)] else []
  }

  /** In columns: an unrevoked key row of an undeleted, active, admitted device. */
  predicate OnAir(t: Tables, f: Facts, k: KeyRow) {
    && k in t.keys && !k.revoked && k.device in t.devices && k.device in f.admitted
    && t.devices[k.device].status == Active && !t.devices[k.device].deleted
  }

  /** The entry says of the key row what its columns say. */
  predicate EntryFor(f: Facts, k: KeyRow, p: Peer) {
    && p.deviceId == k.device && p.publicKey == k.publicKey
    && p.ipv4 == Some(Addr(V4, k.ipv4)) && (p.ipv6 == if k.ipv6.Some? then Some(Addr(V6, k.ipv6.value)) else None)
    && (k.publicKey in f.psks ==> p.psk == f.psks[k.publicKey]) && (k.publicKey !in f.psks ==> p.psk == "")
  }

  /** The list is an entry for every such row, and nothing else. */
  ghost predicate ListsThose(t: Tables, f: Facts, peers: seq<Peer>) {
    && (forall p | p in peers :: exists k :: OnAir(t, f, k) && EntryFor(f, k, p))
    && (forall k | OnAir(t, f, k) :: exists p :: p in peers && EntryFor(f, k, p))
  }

  method AnswerNodePeers(t: Tables, f: Facts) returns (peers: seq<Peer>)
    ensures peers == NodePeers(t, f, t.keys) && ListsThose(t, f, peers)
  {
    ListInColumns(t, f);
    peers := [];
    for i := 0 to |t.keys|
      invariant peers == NodePeers(t, f, t.keys[..i])
    {
      assert t.keys[..i + 1][..i] == t.keys[..i];
      if Listed(t, f, t.keys[i]) {
        peers := peers + [PeerOf(t, f, t.keys[i])];
      }
    }
    assert t.keys[..|t.keys|] == t.keys;
  }

  predicate FromRow(t: Tables, f: Facts, k: KeyRow, p: Peer) {
    Listed(t, f, k) && p == PeerOf(t, f, k)
  }

  lemma {:induction false} PeersComeFromRows(t: Tables, f: Facts, n: nat)
    requires n <= |t.keys|
    ensures forall p | p in NodePeers(t, f, t.keys[..n]) :: exists i :: 0 <= i < n && FromRow(t, f, t.keys[i], p)
    ensures forall i | 0 <= i < n && Listed(t, f, t.keys[i]) :: PeerOf(t, f, t.keys[i]) in NodePeers(t, f, t.keys[..n])
  {
    if n != 0 {
      PeersComeFromRows(t, f, n - 1);
      assert t.keys[..n][..n - 1] == t.keys[..n - 1];
      if Listed(t, f, t.keys[n - 1]) {
        assert FromRow(t, f, t.keys[n - 1], PeerOf(t, f, t.keys[n - 1]));
      }
    }
  }

  lemma EntryInColumns(t: Tables, f: Facts, k: KeyRow)
    requires k in t.keys
    ensures Listed(t, f, k) <==> OnAir(t, f, k)
    ensures k.device in t.devices ==> EntryFor(f, k, PeerOf(t, f, k))
  {
  }

  lemma ListedInColumns(t: Tables, f: Facts, p: Peer)
    requires p in NodePeers(t, f, t.keys)
    ensures exists k :: OnAir(t, f, k) && EntryFor(f, k, p)
  {
    assert t.keys[..|t.keys|] == t.keys;
    PeersComeFromRows(t, f, |t.keys|);
    var i :| 0 <= i < |t.keys| && FromRow(t, f, t.keys[i], p);
    EntryInColumns(t, f, t.keys[i]);
  }

  lemma ColumnsListed(t: Tables, f: Facts, k: KeyRow)
    requires OnAir(t, f, k)
    ensures exists p :: p in NodePeers(t, f, t.keys) && EntryFor(f, k, p)
  {
    assert t.keys[..|t.keys|] == t.keys;
    PeersComeFromRows(t, f, |t.keys|);
    EntryInColumns(t, f, k);
    var i :| 0 <= i < |t.keys| && t.keys[i] == k;
    assert Listed(t, f, t.keys[i]);
  }

  lemma ListInColumns(t: Tables, f: Facts)
    ensures ListsThose(t, f, NodePeers(t, f, t.keys))
  {
    forall p | p in NodePeers(t, f, t.keys) ensures exists k :: OnAir(t, f, k) && EntryFor(f, k, p) {
      ListedInColumns(t, f, p);
    }
    forall k | OnAir(t, f, k) ensures exists p :: p in NodePeers(t, f, t.keys) && EntryFor(f, k, p) {
      ColumnsListed(t, f, k);
    }
  }

  // ----- What the list lets through -------------------------------------------------

  /** The key row and its device's row, as the policy lookup sees them. */
  predicate Describes(t: Tables, f: Facts, k: KeyRow, d: Controller.Device) {
    && d.id == k.device && d.tenant == f.tenant && k.device in t.devices && d.policy == t.devices[k.device].policy
    && (d.group == if k.device in f.group then Some(f.group[k.device]) else None)
    && (d.memberOf == if k.device in f.members then f.members[k.device] else {})
    && d.ipv4 == Some(Addr(V4, k.ipv4)) && (d.ipv6 == if k.ipv6.Some? then Some(Addr(V6, k.ipv6.value)) else None)
  }

  /** The rule rows read for each device are what the rule query answers. */
  ghost predicate RowsAnswered(t: Tables, f: Facts) {
    forall k, d | OnAir(t, f, k) && Describes(t, f, k, d) ::
      k.device in f.ruleRows && Controller.AnswersRuleQuery(f.policies, d, f.ruleRows[k.device])
  }

  /** An active key of an active device has this source, and the tables permit the packet. */
  ghost predicate TablesLetThrough(t: Tables, f: Facts, pkt: Packet) {
    exists k, d :: OnAir(t, f, k) && Describes(t, f, k, d) && PolicyChain.DeviceOwns(d, pkt.src)
                   && PolicyChain.TablesPermit(f.policies, d, pkt)
  }

  lemma SamePolicyView(f: Facts, d: Controller.Device, e: Controller.Device, pkt: Packet)
    requires d.id == e.id && d.tenant == e.tenant && d.policy == e.policy && d.group == e.group && d.memberOf == e.memberOf
    ensures PolicyChain.TablesPermit(f.policies, d, pkt) ==> PolicyChain.TablesPermit(f.policies, e, pkt)
  {
    if id :| PolicyChain.JudgedBy(f.policies, d, id) && PolicyChain.PolicyPermits(f.policies, d, f.policies.policies[id], pkt) {
      forall g ensures PolicyChain.InLiveGroup(f.policies, d, g) <==> PolicyChain.InLiveGroup(f.policies, e, g) {
      }
      assert PolicyChain.JudgedBy(f.policies, e, id);
      forall r ensures PolicyChain.Names(f.policies, d, r) <==> PolicyChain.Names(f.policies, e, r) {
      }
      SameGoverned(f, d, e, f.policies.policies[id], pkt);
    }
  }

  lemma SameGoverned(f: Facts, d: Controller.Device, e: Controller.Device, pol: Controller.Policy, pkt: Packet)
    requires forall r :: PolicyChain.Names(f.policies, d, r) <==> PolicyChain.Names(f.policies, e, r)
    ensures PolicyChain.PolicyPermits(f.policies, d, pol, pkt) ==> PolicyChain.PolicyPermits(f.policies, e, pol, pkt)
  {
    forall r ensures PolicyChain.Governs(f.policies, d, pol, r) <==> PolicyChain.Governs(f.policies, e, pol, r) {
    }
  }

  lemma EntryVerdict(t: Tables, f: Facts, k: KeyRow, pkt: Packet)
    requires OnAir(t, f, k) && RowsAnswered(t, f) && PolicyChain.HostsUsable(f.policies)
    ensures Describes(t, f, k, DeviceOf(t, f, k))
    ensures Owns(PeerOf(t, f, k), pkt.src) <==> PolicyChain.DeviceOwns(DeviceOf(t, f, k), pkt.src)
    ensures PolicyVerdict(PeerOf(t, f, k), pkt) == Some(Accept) <==> PolicyChain.TablesPermit(f.policies, DeviceOf(t, f, k), pkt)
  {
    var d, p := DeviceOf(t, f, k), PeerOf(t, f, k);
    assert Describes(t, f, k, d);
    assert PolicyChain.ListedAs(f.policies, d, p);
    PolicyChain.ListedOwns(f.policies, d, p, pkt.src);
    PolicyChain.VerdictByTables(f.policies, d, p, pkt);
  }

  lemma ListedVerdict(pools: Pools, t: Tables, f: Facts, o: Options, pkt: Packet, k: KeyRow)
    requires Inv(pools, t) && OnAir(t, f, k) && Owns(PeerOf(t, f, k), pkt.src)
    requires WellFormed(pkt) && pkt.iif == Iface(o) && pkt.ct != Invalid
    ensures Evaluate(ForwardChain(NodePeers(t, f, t.keys), o), pkt, Drop) == Accept
            <==> PolicyVerdict(PeerOf(t, f, k), pkt) == Some(Accept)
  {
    var peers := NodePeers(t, f, t.keys);
    PeerListIsSound(pools, t, f);
    assert t.keys[..|t.keys|] == t.keys;
    PeersComeFromRows(t, f, |t.keys|);
    EntryInColumns(t, f, k);
    var i :| 0 <= i < |t.keys| && t.keys[i] == k;
    assert PeerOf(t, f, t.keys[i]) in peers;
    ForwardMeaning(peers, o, pkt);
  }

  /** From the rows to the packet: the ruleset of a list made from reachable tables accepts a tunnel packet
      exactly when an active key of an active device has its source and the tables permit it. */
  lemma ListIsEnforced(pools: Pools, t: Tables, f: Facts, o: Options, pkt: Packet)
    requires Inv(pools, t) && RowsAnswered(t, f) && PolicyChain.HostsUsable(f.policies)
    requires WellFormed(pkt) && pkt.iif == Iface(o) && pkt.ct != Invalid
    ensures Evaluate(ForwardChain(NodePeers(t, f, t.keys), o), pkt, Drop) == Accept <==> TablesLetThrough(t, f, pkt)
  {
    var peers := NodePeers(t, f, t.keys);
    PeerListIsSound(pools, t, f);
    if Evaluate(ForwardChain(peers, o), pkt, Drop) == Accept {
      ForwardMeaning(peers, o, pkt);
      var p :| p in peers && Owns(p, pkt.src);
      var k := RowOfEntry(t, f, p);
      EntryVerdict(t, f, k, pkt);
      ListedVerdict(pools, t, f, o, pkt, k);
    }
    if TablesLetThrough(t, f, pkt) {
      var k, d :| OnAir(t, f, k) && Describes(t, f, k, d) && PolicyChain.DeviceOwns(d, pkt.src)
                  && PolicyChain.TablesPermit(f.policies, d, pkt);
      EntryVerdict(t, f, k, pkt);
      SamePolicyView(f, d, DeviceOf(t, f, k), pkt);
      ListedVerdict(pools, t, f, o, pkt, k);
    }
  }

  lemma RowOfEntry(t: Tables, f: Facts, p: Peer) returns (k: KeyRow)
    requires p in NodePeers(t, f, t.keys)
    ensures OnAir(t, f, k) && p == PeerOf(t, f, k)
  {
    assert t.keys[..|t.keys|] == t.keys;
    PeersComeFromRows(t, f, |t.keys|);
    var i :| 0 <= i < |t.keys| && FromRow(t, f, t.keys[i], p);
    k := t.keys[i];
    EntryInColumns(t, f, k);
  }

  /** A device whose one registration did not attest is never answered. */
  lemma UnattestedIsUnlisted(pools: Pools, steps: seq<Step>, f: Facts, id: string)
    requires Runs(pools, Initial, steps) && |Gates(pools, Initial, steps, id)| == 1 && Gates(pools, Initial, steps, id)[0] != Attested
    ensures var u := After(pools, Initial, steps).tables;
            forall p | p in NodePeers(u, f, u.keys) :: p.deviceId != id
  {
    var u := After(pools, Initial, steps).tables;
    ActiveExactlyWhen(pools, steps, id);
    ListInColumns(u, f);
  }

  lemma RowsApart(t: Tables, f: Facts, i: nat, j: nat, p: Peer, q: Peer)
    requires NoClash(t.keys) && i < |t.keys| && j < |t.keys| && p != q
    requires FromRow(t, f, t.keys[i], p) && FromRow(t, f, t.keys[j], q)
    ensures !SharesAddress(p, q) && p.deviceId != q.deviceId
  {
    if i < j {
      assert !Clash(t.keys[i], t.keys[j]);
    } else {
      assert !Clash(t.keys[j], t.keys[i]);
    }
    NoClashNoShare(t, f, t.keys[i], t.keys[j], p, q);
  }

  lemma PeersApart(t: Tables, f: Facts, p: Peer, q: Peer)
    requires NoClash(t.keys) && p in NodePeers(t, f, t.keys) && q in NodePeers(t, f, t.keys) && p != q
    ensures !SharesAddress(p, q) && p.deviceId != q.deviceId
  {
    var n := |t.keys|;
    assert t.keys[..n] == t.keys;
    PeersComeFromRows(t, f, n);
    var i :| 0 <= i < n && FromRow(t, f, t.keys[i], p);
    var j :| 0 <= j < n && FromRow(t, f, t.keys[j], q);
    RowsApart(t, f, i, j, p, q);
  }

  /** What the key tables keep is what the gateway relies on: distinct keys, devices and addresses. */
  lemma PeerListIsSound(pools: Pools, t: Tables, f: Facts)
    requires Inv(pools, t)
    ensures var peers := NodePeers(t, f, t.keys);
            Syncer.DistinctKeys(peers) && DisjointAddresses(peers) && DistinctDevices(peers)
  {
    var n := |t.keys|;
    assert t.keys[..n] == t.keys;
    PrefixHasDistinctKeys(pools, t, f, n);
    var peers := NodePeers(t, f, t.keys);
    forall p, q | p in peers && q in peers && p != q ensures !SharesAddress(p, q) && p.deviceId != q.deviceId {
      PeersApart(t, f, p, q);
    }
  }

  lemma NoClashNoShare(t: Tables, f: Facts, k: KeyRow, l: KeyRow, p: Peer, q: Peer)
    requires FromRow(t, f, k, p) && FromRow(t, f, l, q) && (!Clash(k, l) || !Clash(l, k))
    ensures !SharesAddress(p, q) && p.deviceId != q.deviceId
  {
    PeerFace(t, f, k);
    PeerFace(t, f, l);
  }

  lemma PeerFace(t: Tables, f: Facts, k: KeyRow)
    requires k.device in t.devices
    ensures var p := PeerOf(t, f, k);
            && p.deviceId == k.device && p.publicKey == k.publicKey && p.ipv4 == Some(Addr(V4, k.ipv4))
            && p.ipv6 == if k.ipv6.Some? then Some(Addr(V6, k.ipv6.value)) else None
  {
  }

  lemma {:induction false} PrefixHasDistinctKeys(pools: Pools, t: Tables, f: Facts, n: nat)
    requires Inv(pools, t) && n <= |t.keys|
    ensures Syncer.DistinctKeys(NodePeers(t, f, t.keys[..n]))
  {
    if n != 0 {
      PrefixHasDistinctKeys(pools, t, f, n - 1);
      PeersComeFromRows(t, f, n - 1);
      assert t.keys[..n][..n - 1] == t.keys[..n - 1];
      var before := NodePeers(t, f, t.keys[..n - 1]);
      forall i | 0 <= i < |before| ensures before[i].publicKey != t.keys[n - 1].publicKey {
        assert before[i] in before;
        var j :| 0 <= j < n - 1 && FromRow(t, f, t.keys[j], before[i]);
      }
    }
  }

  predicate HasKey(t: Tables, id: string, publicKey: string) {
    exists i :: 0 <= i < |t.keys| && t.keys[i].device == id && t.keys[i].publicKey == publicKey
  }

  /** A listed key is one of the device's own rows, and no other row has it. */
  lemma ListedKeyIsOwn(pools: Pools, t: Tables, f: Facts, p: Peer, i: nat)
    requires Inv(pools, t) && p in NodePeers(t, f, t.keys) && i < |t.keys| && t.keys[i].publicKey == p.publicKey
    ensures t.keys[i].device == p.deviceId && Listed(t, f, t.keys[i])
  {
    PeersComeFromRows(t, f, |t.keys|);
    assert t.keys[..|t.keys|] == t.keys;
    var j :| 0 <= j < |t.keys| && FromRow(t, f, t.keys[j], p);
    PeerFace(t, f, t.keys[j]);
    assert i == j;
  }

  /** While a device is deleted, the list names neither it nor any key it ever had,
      not even one a late rotation revived. */
  lemma DeletedIsUnlisted(pools: Pools, t: Tables, f: Facts, id: string)
    requires Inv(pools, t) && (id in t.devices ==> t.devices[id].deleted)
    ensures forall p | p in NodePeers(t, f, t.keys) :: p.deviceId != id && !HasKey(t, id, p.publicKey)
  {
    forall p | p in NodePeers(t, f, t.keys) ensures p.deviceId != id && !HasKey(t, id, p.publicKey) {
      PeersComeFromRows(t, f, |t.keys|);
      assert t.keys[..|t.keys|] == t.keys;
      var j :| 0 <= j < |t.keys| && FromRow(t, f, t.keys[j], p);
      PeerFace(t, f, t.keys[j]);
      forall i: nat | i < |t.keys| && t.keys[i].publicKey == p.publicKey ensures t.keys[i].device != id {
        ListedKeyIsOwn(pools, t, f, p, i);
      }
    }
  }

  /** A key revoked once is never listed again, whatever happens later. */
  lemma RetiredIsUnlisted(pools: Pools, t: Tables, f: Facts, was: seq<KeyRow>, i: nat)
    requires Inv(pools, t) && Grew(was, t.keys) && i < |was| && was[i].revoked
    ensures forall p | p in NodePeers(t, f, t.keys) :: p.publicKey != was[i].publicKey
  {
    forall p | p in NodePeers(t, f, t.keys) ensures p.publicKey != was[i].publicKey {
      if p.publicKey == was[i].publicKey {
        ListedKeyIsOwn(pools, t, f, p, i);
      }
    }
  }

  /**
   * Whatever commits between a revocation and the next poll: no key the device
   * had is listed; and unless the device registered again, neither it nor any
   * key it has by then is.
   */
  lemma RevokedIsUnlisted(pools: Pools, s: State, proc: nat, later: seq<Step>, f: Facts)
    requires PoolsOk(pools) && Inv(pools, s.tables) && Known(s) && At(s, proc).Revoking?
    requires Runs(pools, Apply(pools, s, CommitRevoke(proc)), later)
    ensures var id := At(s, proc).device;
            var u := After(pools, Apply(pools, s, CommitRevoke(proc)), later).tables;
            && Inv(pools, u)
            && (forall p | p in NodePeers(u, f, u.keys) :: !HasKey(s.tables, id, p.publicKey))
            && ((forall x | x in later && x.Register? :: x.id != id) ==>
                  forall p | p in NodePeers(u, f, u.keys) :: p.deviceId != id && !HasKey(u, id, p.publicKey))
  {
    var id, mid := At(s, proc).device, Apply(pools, s, CommitRevoke(proc));
    var u := After(pools, mid, later).tables;
    StepKeeps(pools, s, CommitRevoke(proc));
    EveryRunKeeps(pools, mid, later);
    KeysGrow(pools, mid, later);
    forall p | p in NodePeers(u, f, u.keys) ensures !HasKey(s.tables, id, p.publicKey) {
      forall i: nat | i < |s.tables.keys| && s.tables.keys[i].device == id ensures s.tables.keys[i].publicKey != p.publicKey {
        RetiredIsUnlisted(pools, u, f, mid.tables.keys, i);
      }
    }
    if forall x | x in later && x.Register? :: x.id != id {
      DeletedUntilRegistered(pools, mid, later, id);
      DeletedIsUnlisted(pools, u, f, id);
    }
  }

  /** The installed ruleset accepts exactly what the tables let through. */
  ghost predicate GatewayEnforces(agent: Syncer.Agent, t: Tables, f: Facts)
    reads agent, agent.kernel
  {
    RowsAnswered(t, f) && PolicyChain.HostsUsable(f.policies) ==>
      && agent.kernel.rules.Some?
      && forall pkt: Packet | pkt.iif == Iface(agent.options) && WellFormed(pkt) && pkt.ct != Invalid ::
           Evaluate(agent.kernel.rules.value.forward, pkt, Drop) == Accept <==> TablesLetThrough(t, f, pkt)
  }

  lemma ListEnforced(pools: Pools, t: Tables, f: Facts, agent: Syncer.Agent)
    requires Inv(pools, t) && agent.kernel.rules == Some(Render(NodePeers(t, f, t.keys), agent.options))
    ensures GatewayEnforces(agent, t, f)
  {
    if RowsAnswered(t, f) && PolicyChain.HostsUsable(f.policies) {
      forall pkt: Packet | pkt.iif == Iface(agent.options) && WellFormed(pkt) && pkt.ct != Invalid
        ensures Evaluate(agent.kernel.rules.value.forward, pkt, Drop) == Accept <==> TablesLetThrough(t, f, pkt)
      {
        ListIsEnforced(pools, t, f, agent.options, pkt);
      }
    }
  }

  ghost predicate KeysListed(table: Syncer.WgTable, peers: seq<Peer>) {
    forall key | key in table :: exists p :: p in peers && p.publicKey == key
  }

  /** Every tunnel packet the ruleset accepts has its source from a listed peer. */
  ghost predicate AcceptsForListed(rules: Option<Ruleset>, peers: seq<Peer>, o: Options) {
    rules.Some? && forall pkt: Packet | pkt.iif == Iface(o) && WellFormed(pkt)
                                        && Evaluate(rules.value.forward, pkt, Drop) == Accept ::
      exists p :: p in peers && Owns(p, pkt.src)
  }

  lemma WantedAreListed(peers: seq<Peer>)
    requires Syncer.DistinctKeys(peers)
    ensures KeysListed(Syncer.Want(peers), peers)
  {
    Syncer.WantIsTheList(peers);
  }

  lemma AcceptedAreOwned(peers: seq<Peer>, o: Options)
    requires DisjointAddresses(peers)
    ensures AcceptsForListed(Some(Render(peers, o)), peers, o)
  {
    forall pkt: Packet | pkt.iif == Iface(o) && WellFormed(pkt) && Evaluate(Render(peers, o).forward, pkt, Drop) == Accept
      ensures exists p :: p in peers && Owns(p, pkt.src)
    {
      ForwardMeaning(peers, o, pkt);
    }
  }

  /** A complete sync of any sound list: the kernel holds listed keys, and accepts for listed devices
      unless an nft that reported failure left other rules. */
  method SyncList(agent: Syncer.Agent, pools: Pools, t: Tables, f: Facts, finish: nat) returns (ok: bool)
    requires agent.Valid() && Inv(pools, t)
    modifies agent, agent.kernel
    ensures agent.Valid()
    ensures ok ==> KeysListed(agent.kernel.table, NodePeers(t, f, t.keys))
    ensures ok && !agent.kernel.late ==> AcceptsForListed(agent.kernel.rules, NodePeers(t, f, t.keys), agent.options)
    ensures ok && !agent.kernel.late ==> GatewayEnforces(agent, t, f)
    ensures ok ==> exists peers :: ListsThose(t, f, peers) && Syncer.TableOf(agent.kernel.table, peers)
  {
    PeerListIsSound(pools, t, f);
    var peers := AnswerNodePeers(t, f);
    ok := agent.SyncOnce(Some(peers), finish);
    if ok {
      WantedAreListed(peers);
      ListInColumns(t, f);
      if !agent.kernel.late {
        ListEnforced(pools, t, f, agent);
        AcceptedAreOwned(peers, agent.options);
      }
    }
  }

  /**
   * The next complete sync after a revocation, from any kernel and any caches,
   * with any transactions of any devices in between: no WireGuard peer for any
   * key the device had. Unless the device registered again, no peer for any key
   * it has by then either, and no tunnel packet accepted except on behalf of
   * some other listed device, unless an nft that reported failure left other rules.
   */
  method SyncAfterRevocation(agent: Syncer.Agent, pools: Pools, s: State, proc: nat, later: seq<Step>, f: Facts, finish: nat)
    returns (ok: bool)
    requires PoolsOk(pools) && Inv(pools, s.tables) && Known(s) && At(s, proc).Revoking?
    requires Runs(pools, Apply(pools, s, CommitRevoke(proc)), later) && agent.Valid()
    modifies agent, agent.kernel
    ensures agent.Valid()
    ensures ok ==> forall key | key in agent.kernel.table :: !HasKey(s.tables, At(s, proc).device, key)
    ensures ok && (forall x | x in later && x.Register? :: x.id != At(s, proc).device) ==>
              var id, u := At(s, proc).device, After(pools, Apply(pools, s, CommitRevoke(proc)), later).tables;
              && (forall key | key in agent.kernel.table :: !HasKey(u, id, key))
              && (!agent.kernel.late ==> agent.kernel.rules.Some? && forall pkt: Packet |
                   && pkt.iif == Iface(agent.options) && WellFormed(pkt)
                   && Evaluate(agent.kernel.rules.value.forward, pkt, Drop) == Accept ::
                   exists p :: p in NodePeers(u, f, u.keys) && p.deviceId != id && Owns(p, pkt.src))
  {
    var u := After(pools, Apply(pools, s, CommitRevoke(proc)), later).tables;
    RevokedIsUnlisted(pools, s, proc, later, f);
    ok := SyncList(agent, pools, u, f, finish);
  }
}
