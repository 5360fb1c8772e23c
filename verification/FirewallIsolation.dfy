/** Address translation, and what one device's traffic does not depend on. */
module FirewallIsolation {
  import opened Net
  import opened Firewall
  import opened FirewallMeaning
  import Order

  function RewriteOf(rewrites: seq<Rewrite>, dst: Addr): Option<Addr> {
    if rewrites == [] then None
    else if rewrites[0].virtualIp == dst then Some(rewrites[0].realIp)
    else RewriteOf(rewrites[1..], dst)
  }

  lemma {:induction false} DnatConcat(a: seq<DnatLine>, b: seq<DnatLine>, pkt: Packet)
    ensures DnatTarget(a + b, pkt) == if DnatTarget(a, pkt).Some? then DnatTarget(a, pkt) else DnatTarget(b, pkt)
  {
    if a == [] {
      assert a + b == b;
    } else {
      assert (a + b)[0] == a[0] && (a + b)[1..] == a[1..] + b;
      DnatConcat(a[1..], b, pkt);
    }
  }

  lemma {:induction false} RewriteLinesMeaning(src: Addr, rewrites: seq<Rewrite>, pkt: Packet)
    ensures DnatTarget(RewriteLines(src, rewrites), pkt) ==
            if pkt.iif == "wg0" && pkt.src == src then RewriteOf(rewrites, pkt.dst) else None
  {
    if rewrites != [] {
      RewriteLinesMeaning(src, rewrites[1..], pkt);
      var l := RewriteLines(src, rewrites);
      assert l[0] == DnatLine("wg0", src, rewrites[0].virtualIp, rewrites[0].realIp) && l[1..] == RewriteLines(src, rewrites[1..]);
    }
  }

  /** The rewrite of a packet is its sender's own, whatever else is in the list. */
  lemma {:induction false} DnatMeaning(peers: seq<Peer>, pkt: Packet)
    requires DisjointAddresses(peers)
    ensures pkt.iif != "wg0" || (forall p | p in peers :: p.ipv4 != Some(pkt.src)) ==>
              DnatTarget(Prerouting(peers), pkt) == None
    ensures forall p | p in peers && p.ipv4 == Some(pkt.src) && pkt.iif == "wg0" ::
              DnatTarget(Prerouting(peers), pkt) == RewriteOf(p.rewrites, pkt.dst)
  {
    if peers == [] {
    } else {
      DnatMeaning(peers[1..], pkt);
      var p := peers[0];
      var head := if p.ipv4.Some? then RewriteLines(p.ipv4.value, p.rewrites) else [];
      if p.ipv4.Some? {
        RewriteLinesMeaning(p.ipv4.value, p.rewrites, pkt);
      }
      DnatConcat(head, Prerouting(peers[1..]), pkt);
      assert forall q :: q in peers <==> q == p || q in peers[1..];
      forall q | q in peers && q.ipv4 == Some(pkt.src) && p.ipv4 == Some(pkt.src) ensures q == p {
        assert SharesAddress(p, q);
      }
    }
  }

  lemma MasqConcat(a: seq<MasqLine>, b: seq<MasqLine>, pkt: Packet)
    ensures Masqueraded(a + b, pkt) <==> Masqueraded(a, pkt) || Masqueraded(b, pkt)
  {
    if Masqueraded(a, pkt) {
      var i :| 0 <= i < |a| && pkt.src == a[i].src && Contains(a[i].dst, pkt.dst);
      assert (a + b)[i] == a[i];
    }
    if Masqueraded(b, pkt) {
      var i :| 0 <= i < |b| && pkt.src == b[i].src && Contains(b[i].dst, pkt.dst);
      assert (a + b)[|a| + i] == b[i];
    }
  }

  predicate NatTo(cidrs: seq<Prefix>, a: Addr) {
    exists i :: 0 <= i < |cidrs| && Contains(cidrs[i], a)
  }

  lemma {:induction false} MasqLinesMeaning(src: Addr, cidrs: seq<Prefix>, pkt: Packet)
    ensures Masqueraded(MasqLines(src, cidrs), pkt) <==> pkt.src == src && NatTo(cidrs, pkt.dst)
  {
    if cidrs != [] {
      MasqLinesMeaning(src, cidrs[1..], pkt);
      MasqConcat([MasqLine(src, cidrs[0])], MasqLines(src, cidrs[1..]), pkt);
      var one := [MasqLine(src, cidrs[0])];
      assert Masqueraded(one, pkt) <==> pkt.src == one[0].src && Contains(one[0].dst, pkt.dst);
      SourcedHead(cidrs, pkt.dst);
      assert NatTo(cidrs, pkt.dst) == Sourced(cidrs, pkt.dst) && NatTo(cidrs[1..], pkt.dst) == Sourced(cidrs[1..], pkt.dst);
    }
  }

  lemma {:induction false} MasqMeaning(peers: seq<Peer>, pkt: Packet)
    ensures Masqueraded(Postrouting(peers), pkt) <==>
            exists p :: p in peers && p.ipv4 == Some(pkt.src) && NatTo(p.natCidrs, pkt.dst)
  {
    if peers == [] {
    } else {
      MasqMeaning(peers[1..], pkt);
      var p := peers[0];
      var head := if p.ipv4.Some? then MasqLines(p.ipv4.value, p.natCidrs) else [];
      if p.ipv4.Some? {
        MasqLinesMeaning(p.ipv4.value, p.natCidrs, pkt);
      }
      MasqConcat(head, Postrouting(peers[1..]), pkt);
      assert forall q :: q in peers <==> q == p || q in peers[1..];
    }
  }

  /** Adding, removing or editing other peers never touches this device's traffic. */
  lemma PeerIsolation(peers: seq<Peer>, others: seq<Peer>, p: Peer, o: Options, pkt: Packet)
    requires DisjointAddresses(peers) && DisjointAddresses(others)
    requires p in peers && p in others && Owns(p, pkt.src) && WellFormed(pkt)
    ensures Evaluate(ForwardChain(peers, o), pkt, Drop) == Evaluate(ForwardChain(others, o), pkt, Drop)
    ensures Evaluate(InputChain(peers, o), pkt, Accept) == Evaluate(InputChain(others, o), pkt, Accept)
    ensures Dnat(Prerouting(peers), pkt) == Dnat(Prerouting(others), pkt)
    ensures Masqueraded(Postrouting(peers), pkt) <==> Masqueraded(Postrouting(others), pkt)
  {
    ForwardMeaning(peers, o, pkt);
    ForwardMeaning(others, o, pkt);
    InputAppliesSamePolicy(peers, o, pkt);
    InputAppliesSamePolicy(others, o, pkt);
    DnatMeaning(peers, pkt);
    DnatMeaning(others, pkt);
    MasqMeaning(peers, pkt);
    MasqMeaning(others, pkt);
    OnlyAt(peers, p, pkt.src);
    OnlyAt(others, p, pkt.src);
  }

  lemma OnlyAt(peers: seq<Peer>, p: Peer, a: Addr)
    requires DisjointAddresses(peers) && p in peers && Owns(p, a)
    ensures forall q | q in peers && q.ipv4 == Some(a) :: q == p
  {
    forall q | q in peers && q.ipv4 == Some(a) ensures q == p {
      assert SharesAddress(p, q);
    }
  }

  /** The order the controller listed the peers in is invisible. */
  lemma OrderIndependence(peers: seq<Peer>, shuffled: seq<Peer>, o: Options, pkt: Packet)
    requires multiset(peers) == multiset(shuffled)
    requires DistinctDevices(peers) && DisjointAddresses(peers)
    ensures ForwardChain(peers, o) == ForwardChain(shuffled, o) && InputChain(peers, o) == InputChain(shuffled, o)
    ensures Dnat(Prerouting(peers), pkt) == Dnat(Prerouting(shuffled), pkt)
    ensures Masqueraded(Postrouting(peers), pkt) <==> Masqueraded(Postrouting(shuffled), pkt)
  {
    forall p ensures p in peers <==> p in shuffled {
      assert p in multiset(peers) <==> p in multiset(shuffled);
    }
    DeviceLeIsTotal();
    forall p, q | p in peers && q in peers && DeviceLe(p, q) && DeviceLe(q, p) ensures p == q {
      Order.TextLeLinear(p.deviceId, q.deviceId);
    }
    Order.SortIgnoresOrder(DeviceLe, peers, shuffled);
    DnatMeaning(peers, pkt);
    DnatMeaning(shuffled, pkt);
    MasqMeaning(peers, pkt);
    MasqMeaning(shuffled, pkt);
  }
}
