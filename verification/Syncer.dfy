/**
 * The gateway reconciler: poll the controller, install the firewall, then make
 * the kernel's WireGuard peers the ones that were fetched. Commands may fail at
 * any point and Go's map iteration order is arbitrary, so both are left open.
 */
module Syncer {
  import opened Net
  import opened Firewall
  import opened FirewallRender

  /** One WireGuard peer: its allowed-ips and its pre-shared key, "" for none. */
  datatype WgPeer = WgPeer(allowed: set<Prefix>, psk: string)

  type WgTable = map<string, WgPeer>

  /** One cycle's poll, None when it failed, and when the cycle finished. */
  type Cycle = (Option<seq<Peer>>, nat)

  /** A hash without collisions. */
  datatype Digest = Sha256(script: Ruleset)

  /** A peer entering the kernel, with the ruleset installed at that moment and whether an nft
      that reported failure had put it there. */
  datatype Arrival = Arrival(publicKey: string, rules: Option<Ruleset>, late: bool)

  // ----- What the controller asked for ---------------------------------------

  function AllowedFor(p: Peer): set<Prefix> {
    (if p.ipv4.Some? then {Prefix(p.ipv4.value.family, p.ipv4.value.value, 32)} else {}) +
    (if p.ipv6.Some? then {Prefix(p.ipv6.value.family, p.ipv6.value.value, 128)} else {})
  }

  predicate Usable(p: Peer) {
    p.publicKey != "" && (p.ipv4.Some? || p.ipv6.Some?)
  }

  /** The desired table; entries without key or address are left out. */
  function Want(peers: seq<Peer>): WgTable {
    if peers == [] then map[] else
      var init, last := Want(peers[..|peers| - 1]), peers[|peers| - 1];
      if Usable(last) then init[last.publicKey := WgPeer(AllowedFor(last), last.psk)] else init
  }

  predicate DistinctKeys(peers: seq<Peer>) {
    forall i, j | 0 <= i < j < |peers| :: peers[i].publicKey != peers[j].publicKey
  }

  predicate AsWanted(t: WgTable, p: Peer) {
    p.publicKey in t && t[p.publicKey] == WgPeer(AllowedFor(p), p.psk)
  }

  predicate KeyListed(peers: seq<Peer>, k: string) {
    exists i :: 0 <= i < |peers| && Usable(peers[i]) && peers[i].publicKey == k
  }

  lemma {:induction false} WantContents(peers: seq<Peer>)
    requires DistinctKeys(peers)
    ensures forall i | 0 <= i < |peers| && Usable(peers[i]) :: AsWanted(Want(peers), peers[i])
    ensures forall k | k in Want(peers) :: KeyListed(peers, k)
  {
    if peers != [] {
      var n := |peers| - 1;
      var init := peers[..n];
      WantContents(init);
      forall i | 0 <= i < n && Usable(peers[i]) ensures AsWanted(Want(peers), peers[i]) {
        assert init[i] == peers[i] && AsWanted(Want(init), init[i]);
      }
      forall k | k in Want(peers) ensures KeyListed(peers, k) {
        if k in Want(init) {
          var i :| 0 <= i < |init| && Usable(init[i]) && init[i].publicKey == k;
          assert Usable(peers[i]) && peers[i].publicKey == k;
        } else {
          assert Usable(peers[n]) && peers[n].publicKey == k;
        }
      }
    }
  }

  /** Addresses the table sends to this entry. */
  predicate RoutedTo(w: WgPeer, a: Addr) {
    exists x :: x in w.allowed && Contains(x, a)
  }

  predicate RightFamilies(p: Peer) {
    (p.ipv4.Some? ==> p.ipv4.value.family == V4) && (p.ipv6.Some? ==> p.ipv6.value.family == V6)
  }

  /** The entry of a listed peer: its own pre-shared key, reached at its own addresses and at no other. */
  ghost predicate EntryOf(t: WgTable, p: Peer) {
    && p.publicKey in t && t[p.publicKey].psk == p.psk
    && (RightFamilies(p) ==> forall a :: RoutedTo(t[p.publicKey], a) <==> Owns(p, a))
  }

  /** The table is the list's: an entry for every peer with a key and an address, and no other. */
  ghost predicate TableOf(t: WgTable, peers: seq<Peer>) {
    && (forall p | p in peers && p.publicKey != "" && (p.ipv4.Some? || p.ipv6.Some?) :: EntryOf(t, p))
    && (forall k | k in t :: exists p :: p in peers && p.publicKey == k && k != "" && (p.ipv4.Some? || p.ipv6.Some?))
  }

  lemma AllowedIsOwned(p: Peer, a: Addr)
    requires RightFamilies(p)
    ensures RoutedTo(WgPeer(AllowedFor(p), p.psk), a) <==> Owns(p, a)
  {
    if p.ipv4.Some? {
      HostRouteIsOneAddress(p.ipv4.value, a);
      assert HostRoute(p.ipv4.value) in AllowedFor(p);
    }
    if p.ipv6.Some? {
      HostRouteIsOneAddress(p.ipv6.value, a);
      assert HostRoute(p.ipv6.value) in AllowedFor(p);
    }
  }

  lemma WantIsTheList(peers: seq<Peer>)
    requires DistinctKeys(peers)
    ensures TableOf(Want(peers), peers)
  {
    WantContents(peers);
    forall p | p in peers && p.publicKey != "" && (p.ipv4.Some? || p.ipv6.Some?) ensures EntryOf(Want(peers), p) {
      var i :| 0 <= i < |peers| && peers[i] == p;
      assert AsWanted(Want(peers), peers[i]);
      if RightFamilies(p) {
        forall a ensures RoutedTo(Want(peers)[p.publicKey], a) <==> Owns(p, a) {
          AllowedIsOwned(p, a);
        }
      }
    }
    forall k | k in Want(peers)
      ensures exists p :: p in peers && p.publicKey == k && k != "" && (p.ipv4.Some? || p.ipv6.Some?)
    {
      assert KeyListed(peers, k);
      var i :| 0 <= i < |peers| && Usable(peers[i]) && peers[i].publicKey == k;
      assert peers[i] in peers;
    }
  }

  predicate DisjointAllowed(t: WgTable) {
    forall k, l | k in t && l in t && k != l :: t[k].allowed !! t[l].allowed
  }

  lemma OwnAddressesOnly(p: Peer, q: Peer)
    requires !SharesAddress(p, q)
    ensures AllowedFor(p) !! AllowedFor(q)
  {
  }

  lemma WantIsDisjoint(peers: seq<Peer>)
    requires DistinctKeys(peers) && DisjointAddresses(peers)
    ensures DisjointAllowed(Want(peers))
  {
    WantContents(peers);
    forall k, l | k in Want(peers) && l in Want(peers) && k != l
      ensures Want(peers)[k].allowed !! Want(peers)[l].allowed
    {
      assert KeyListed(peers, k) && KeyListed(peers, l);
      var i :| 0 <= i < |peers| && Usable(peers[i]) && peers[i].publicKey == k;
      var j :| 0 <= j < |peers| && Usable(peers[j]) && peers[j].publicKey == l;
      assert peers[i] in peers && peers[j] in peers;
      OwnAddressesOnly(peers[i], peers[j]);
      assert AsWanted(Want(peers), peers[i]) && AsWanted(Want(peers), peers[j]);
    }
  }

  // ----- The host ---------------------------------------------------------------

  /** `wg set peer`: the addresses move to this peer from whoever held them. */
  function SetPeer(t: WgTable, pub: string, allowed: set<Prefix>, psk: string): WgTable {
    map k | k in t.Keys + {pub} ::
      if k == pub then WgPeer(allowed, psk) else t[k].(allowed := t[k].allowed - allowed)
  }

  class Kernel {
    var table: WgTable
    var rules: Option<Ruleset>
    /** The last nft that took effect reported failure. */
    ghost var late: bool
    ghost var arrivals: seq<Arrival>
    /** How many changing commands were given, successful or not. */
    ghost var commands: nat

    constructor (table: WgTable, rules: Option<Ruleset>)
      ensures this.table == table && this.rules == rules && !late && arrivals == [] && commands == 0
    {
      this.table, this.rules, late, arrivals, commands := table, rules, false, [], 0;
    }

    /** nft replaces the ruleset in one transaction; one that fails may still have done so. */
    method Nft(script: Ruleset) returns (ok: bool)
      modifies this`rules, this`late, this`commands
      ensures || (rules == Some(script) && late == !ok)
              || (!ok && rules == old(rules) && late == old(late))
      ensures commands == old(commands) + 1
    {
      commands := commands + 1;
      ok := *;
      var applied := *;
      if ok || applied {
        rules, late := Some(script), !ok;
      }
    }

    /** A failing wg may still have taken effect. */
    method WgSet(pub: string, allowed: set<Prefix>, psk: string) returns (ok: bool)
      modifies this`table, this`arrivals, this`commands
      ensures table == SetPeer(old(table), pub, allowed, psk) || (!ok && table == old(table))
      ensures ok ==> && pub in table && table[pub] == WgPeer(allowed, psk) && table.Keys == old(table).Keys + {pub}
                     && forall k | k in old(table) && k != pub ::
                          table[k].psk == old(table)[k].psk
                          && forall x :: x in table[k].allowed <==> x in old(table)[k].allowed && x !in allowed
      ensures arrivals == old(arrivals) + [Arrival(pub, rules, late)] && commands == old(commands) + 1
    {
      commands := commands + 1;
      ok := *;
      var applied := *;
      if ok || applied {
        table := SetPeer(table, pub, allowed, psk);
      }
      arrivals := arrivals + [Arrival(pub, rules, late)];
    }

    method WgRemove(pub: string) returns (ok: bool)
      modifies this`table, this`commands
      ensures table == old(table) - {pub} || (!ok && table == old(table))
      ensures commands == old(commands) + 1
    {
      commands := commands + 1;
      ok := *;
      var applied := *;
      if ok || applied {
        table := table - {pub};
      }
    }

    /** `wg show dump`, which may fail too. */
    method WgShow() returns (ok: bool, have: WgTable)
      ensures ok ==> have == table
    {
      ok := *;
      have := if ok then table else map[];
    }
  }

  /** The firewall and the hash the agent remembers of it. */
  datatype Rules = Rules(installed: Option<Ruleset>, late: bool, cached: Option<Digest>)

  /** An nft that succeeds, one that takes effect but reports failure, one that does nothing. */
  datatype Outcome = Done | Late | Failed

  function Applied(r: Rules, script: Ruleset, outcome: Outcome): Rules {
    if r.cached == Some(Sha256(script)) then r
    else match outcome
      case Done => Rules(Some(script), false, Some(Sha256(script)))
      case Late => Rules(Some(script), true, r.cached)
      case Failed => r
  }

  /** A list comes, another whose nft takes effect but reports failure, and the first again: from then
      on the cycles skip nft by the hash, and the second list's ruleset stays. */
  lemma ALateNftOutlivesItsList(r: Rules, first: Ruleset, second: Ruleset, next: Outcome, later: Outcome)
    requires first != second
    ensures var after := Applied(Applied(Applied(r, first, Done), second, Late), first, next);
            && after.cached == Some(Sha256(first)) && after.installed == Some(second)
            && Applied(after, first, later) == after
  {
  }

  /** The log only grew, by wanted peers that all met the same ruleset. */
  ghost predicate Met(before: seq<Arrival>, after: seq<Arrival>, rules: Option<Ruleset>, late: bool, want: WgTable) {
    after == before
    || (after != [] && after[|after| - 1] == Arrival(after[|after| - 1].publicKey, rules, late)
        && after[|after| - 1].publicKey in want && Met(before, after[..|after| - 1], rules, late, want))
  }

  lemma MetOneMore(before: seq<Arrival>, log: seq<Arrival>, pub: string, rules: Option<Ruleset>, late: bool, want: WgTable)
    requires Met(before, log, rules, late, want) && pub in want
    ensures Met(before, log + [Arrival(pub, rules, late)], rules, late, want)
  {
    var more := log + [Arrival(pub, rules, late)];
    assert more[..|more| - 1] == log;
  }

  /** The table already agrees with `want` wherever it is settled. */
  predicate Settled(t: WgTable, want: WgTable, keys: set<string>) {
    forall k | k in keys && k in want :: k in t && t[k] == want[k]
  }

  /** Setting one wanted peer disturbs no other settled one: their addresses are disjoint. */
  lemma SetKeepsSettled(t: WgTable, want: WgTable, keys: set<string>, pub: string)
    requires Settled(t, want, keys) && DisjointAllowed(want) && pub in want
    ensures Settled(SetPeer(t, pub, want[pub].allowed, want[pub].psk), want, keys + {pub})
  {
    var t' := SetPeer(t, pub, want[pub].allowed, want[pub].psk);
    forall k | k in keys + {pub} && k in want ensures k in t' && t'[k] == want[k] {
      if k != pub {
        assert t[k].allowed - want[pub].allowed == t[k].allowed;
      }
    }
  }

  lemma SettledExactly(t: WgTable, want: WgTable)
    requires Settled(t, want, want.Keys) && t.Keys <= want.Keys
    ensures t == want
  {
    forall k ensures k in t <==> k in want {
      assert k in want ==> k in want.Keys;
    }
  }

  function Unix(nanos: nat): nat {
    nanos / 1_000_000_000
  }

  class Agent {
    const kernel: Kernel
    const options: Options
    var lastRulesHash: Option<Digest>
    var lastPeerSet: WgTable
    var lastSyncUnix: nat
    /** When complete cycles finished, in nanoseconds. */
    ghost var completed: seq<nat>

    /** The hash cache names the installed ruleset, unless an nft that reported failure has since
        put another one there. */
    ghost predicate Valid()
      reads this, kernel
    {
      && (lastRulesHash.Some? ==> (kernel.rules == Some(lastRulesHash.value.script) <==> !kernel.late))
      && (lastSyncUnix != 0 ==> exists c :: c in completed && Unix(c) == lastSyncUnix)
    }

    constructor (kernel: Kernel, options: Options)
      ensures Valid() && this.kernel == kernel && this.options == options && completed == []
      ensures lastRulesHash == None && lastPeerSet == map[] && lastSyncUnix == 0
    {
      this.kernel, this.options := kernel, options;
      lastRulesHash, lastPeerSet, lastSyncUnix, completed := None, map[], 0, [];
    }

    ghost function RulesNow(): Rules
      reads this, kernel
    {
      Rules(kernel.rules, kernel.late, lastRulesHash)
    }

    /** True when a complete cycle is no older than `maxAge` nanoseconds. */
    method Ready(now: nat, maxAge: int) returns (ready: bool)
      requires Valid()
      ensures ready <==> lastSyncUnix != 0 && 0 < maxAge && 0 <= now - lastSyncUnix * 1_000_000_000 <= maxAge
      ensures ready ==> exists c :: c in completed && now - c <= maxAge && c / 1_000_000_000 * 1_000_000_000 <= now
    {
      if lastSyncUnix == 0 || maxAge <= 0 {
        return false;
      }
      var age := now - lastSyncUnix * 1_000_000_000;
      ready := 0 <= age && age <= maxAge;
    }

    /** Installs the rendered ruleset unless the hash says it is already there, which is so exactly
        when no nft that reported failure took effect since. */
    method ApplyRules(peers: seq<Peer>) returns (ok: bool)
      requires Valid()
      modifies this`lastRulesHash, kernel`rules, kernel`late, kernel`commands
      ensures Valid()
      ensures ok ==> lastRulesHash == Some(Sha256(Render(peers, options)))
      ensures ok ==> (kernel.rules == Some(Render(peers, options)) <==> !kernel.late)
      ensures old(lastRulesHash) == Some(Sha256(Render(peers, options))) ==>
                ok && kernel.rules == old(kernel.rules) && kernel.late == old(kernel.late) && kernel.commands == old(kernel.commands)
      ensures ok && old(lastRulesHash) != Some(Sha256(Render(peers, options))) ==> !kernel.late
      ensures !ok ==> lastRulesHash == old(lastRulesHash)
      ensures exists outcome :: RulesNow() == Applied(old(RulesNow()), Render(peers, options), outcome)
    {
      assert Applied(RulesNow(), Render(peers, options), Failed) == RulesNow();
      var script := RenderScript(peers, options);
      var hash := Sha256(script);
      if lastRulesHash == Some(hash) {
        return true;
      }
      ok := kernel.Nft(script);
      if ok {
        lastRulesHash := Some(hash);
        assert RulesNow() == Applied(old(RulesNow()), script, Done);
      } else {
        assert RulesNow() == Applied(old(RulesNow()), script, Late) || RulesNow() == old(RulesNow());
      }
    }

    /** The desired table and the key to hand to `wg set`, from the fetched list. */
    static method BuildWant(peers: seq<Peer>) returns (want: WgTable, psks: map<string, string>)
      requires DistinctKeys(peers)
      ensures want == Want(peers)
      ensures forall k | k in want :: want[k].psk == if k in psks then psks[k] else ""
    {
      want, psks := map[], map[];
      for i := 0 to |peers|
        invariant want == Want(peers[..i])
        invariant forall k | k in want :: want[k].psk == if k in psks then psks[k] else ""
        invariant forall k | k in want || k in psks :: exists j :: 0 <= j < i && peers[j].publicKey == k
      {
        var p := peers[i];
        assert peers[..i + 1][..i] == peers[..i];
        assert p.publicKey !in want && p.publicKey !in psks;
        if p.psk != "" {
          psks := psks[p.publicKey := p.psk];
        }
        if !Usable(p) {
          continue;
        }
        want := want[p.publicKey := WgPeer(AllowedFor(p), p.psk)];
      }
      assert peers[..|peers|] == peers;
    }

    /** No changing command was given since the log and the count were these. */
    ghost predicate Untouched(arrivals: seq<Arrival>, commands: nat)
      reads kernel
    {
      kernel.arrivals == arrivals && kernel.commands == commands
    }

    /** One `wg set` for a wanted peer, leaving what was settled as it is. */
    method SetOne(want: WgTable, psks: map<string, string>, pub: string, ghost settled: set<string>, ghost before: seq<Arrival>)
      returns (ok: bool)
      requires DisjointAllowed(want) && pub in want && Settled(kernel.table, want, settled)
      requires want[pub].psk == if pub in psks then psks[pub] else ""
      requires Met(before, kernel.arrivals, kernel.rules, kernel.late, want)
      modifies kernel`table, kernel`arrivals, kernel`commands
      ensures ok ==> Settled(kernel.table, want, settled + {pub})
      ensures old(kernel.table).Keys <= kernel.table.Keys <= old(kernel.table).Keys + {pub}
      ensures Met(before, kernel.arrivals, kernel.rules, kernel.late, want)
    {
      SetKeepsSettled(kernel.table, want, settled, pub);
      MetOneMore(before, kernel.arrivals, pub, kernel.rules, kernel.late, want);
      ok := kernel.WgSet(pub, want[pub].allowed, if pub in psks then psks[pub] else "");
    }

    /** Every wanted peer the snapshot does not already show is set, in any order. */
    method SetWanted(want: WgTable, psks: map<string, string>, have: WgTable) returns (ok: bool, applied: nat)
      requires DisjointAllowed(want) && have == kernel.table
      requires forall k | k in want :: want[k].psk == if k in psks then psks[k] else ""
      modifies kernel`table, kernel`arrivals, kernel`commands
      ensures ok ==> Settled(kernel.table, want, want.Keys)
      ensures have.Keys <= kernel.table.Keys <= have.Keys + want.Keys
      ensures Met(old(kernel.arrivals), kernel.arrivals, kernel.rules, kernel.late, want)
      ensures have == want ==> ok && applied == 0 && kernel.table == want && Untouched(old(kernel.arrivals), old(kernel.commands))
    {
      ok, applied := true, 0;
      var rest := want.Keys;
      ghost var settled := set k | k in want && k in have && have[k] == want[k];
      while rest != {}
        invariant ok && rest <= want.Keys <= rest + settled
        invariant forall k | k in rest && k in have && have[k] == want[k] :: k in settled
        invariant Settled(kernel.table, want, settled)
        invariant have.Keys <= kernel.table.Keys <= have.Keys + want.Keys
        invariant Met(old(kernel.arrivals), kernel.arrivals, kernel.rules, kernel.late, want)
        invariant have == want ==> applied == 0 && kernel.table == want && Untouched(old(kernel.arrivals), old(kernel.commands))
        decreases |rest|
      {
        var pub :| pub in rest;
        rest := rest - {pub};
        if pub in have && have[pub] == want[pub] {
          continue;
        }
        ok := SetOne(want, psks, pub, settled, old(kernel.arrivals));
        if !ok {
          return;
        }
        settled := settled + {pub};
        applied := applied + 1;
      }
    }

    /** Every peer the snapshot shows and nobody wants is removed, in any order. */
    method RemoveUnwanted(want: WgTable, have: WgTable) returns (ok: bool, applied: nat)
      requires Settled(kernel.table, want, want.Keys) && have.Keys <= kernel.table.Keys <= have.Keys + want.Keys
      modifies kernel`table, kernel`commands
      ensures ok ==> kernel.table == want
      ensures kernel.table.Keys <= old(kernel.table.Keys)
      ensures have == want ==> ok && applied == 0 && kernel.commands == old(kernel.commands)
    {
      ok, applied := true, 0;
      var rest := have.Keys;
      while rest != {}
        invariant ok && Settled(kernel.table, want, want.Keys)
        invariant rest <= have.Keys && kernel.table.Keys <= old(kernel.table.Keys) && kernel.table.Keys <= rest + want.Keys
        invariant have == want ==> applied == 0 && kernel.commands == old(kernel.commands)
        decreases |rest|
      {
        var pub :| pub in rest;
        rest := rest - {pub};
        if pub in want {
          continue;
        }
        ok := kernel.WgRemove(pub);
        if !ok {
          return;
        }
        applied := applied + 1;
      }
      SettledExactly(kernel.table, want);
    }

    /**
     * Reconciles the kernel's peers. A nil error means the table is the desired
     * one exactly, from any starting table and cache; a table that already is
     * gets no `wg set` at all.
     */
    method ApplyPeers(peers: seq<Peer>) returns (ok: bool, applied: nat)
      requires DistinctKeys(peers) && DisjointAddresses(peers)
      modifies this`lastPeerSet, kernel`table, kernel`arrivals, kernel`commands
      ensures ok ==> kernel.table == Want(peers) && TableOf(kernel.table, peers)
      ensures old(kernel.table) == Want(peers) ==>
                applied == 0 && kernel.table == old(kernel.table) && Untouched(old(kernel.arrivals), old(kernel.commands))
      ensures kernel.table.Keys <= old(kernel.table.Keys) + Want(peers).Keys
      ensures Met(old(kernel.arrivals), kernel.arrivals, kernel.rules, kernel.late, Want(peers))
    {
      var want, psks := BuildWant(peers);
      WantIsDisjoint(peers);
      WantIsTheList(peers);
      var same := want == lastPeerSet;
      var shown, have := kernel.WgShow();
      applied := 0;
      if !shown {
        return false, 0;
      }
      if same && have == want {
        return true, 0;
      }
      var sets, removes;
      ok, sets := SetWanted(want, psks, have);
      if !ok {
        return false, sets;
      }
      ok, removes := RemoveUnwanted(want, have);
      applied := sets + removes;
      if ok {
        lastPeerSet := want;
      }
    }

    /** The caches and the table are those of a complete cycle with this list. */
    ghost predicate InSync(peers: seq<Peer>)
      reads this, kernel
    {
      lastRulesHash == Some(Sha256(Render(peers, options))) && kernel.table == Want(peers)
    }

    /**
     * One poll-and-apply cycle; `fetched` is None when the poll failed. The
     * firewall goes first, so every peer that enters meets the ruleset of its
     * own list, unless an nft that reported failure put another one there. A
     * failed poll changes nothing, nor does a list already in place.
     */
    method SyncOnce(fetched: Option<seq<Peer>>, finish: nat) returns (ok: bool)
      requires Valid()
      requires fetched.Some? ==> DistinctKeys(fetched.value) && DisjointAddresses(fetched.value)
      modifies this, kernel
      ensures Valid()
      ensures ok ==> && fetched.Some? && InSync(fetched.value) && TableOf(kernel.table, fetched.value)
                     && lastSyncUnix == finish / 1_000_000_000
                     && (kernel.rules == Some(Render(fetched.value, options)) <==> !kernel.late)
                     && (old(lastRulesHash) != Some(Sha256(Render(fetched.value, options))) ==> !kernel.late)
      ensures (fetched.Some? && old(InSync(fetched.value))) ==>
                && InSync(fetched.value) && kernel.rules == old(kernel.rules) && kernel.late == old(kernel.late)
                && Untouched(old(kernel.arrivals), old(kernel.commands))
      ensures completed == if ok then old(completed) + [finish] else old(completed)
      ensures !ok ==> lastSyncUnix == old(lastSyncUnix)
      ensures fetched.None? ==> && kernel.table == old(kernel.table) && kernel.rules == old(kernel.rules)
                                && kernel.late == old(kernel.late) && Untouched(old(kernel.arrivals), old(kernel.commands))
                                && lastRulesHash == old(lastRulesHash) && lastPeerSet == old(lastPeerSet)
      ensures fetched.Some? ==> CycleLog(fetched.value, options, old(kernel.arrivals), kernel.arrivals)
      ensures fetched.Some? ==> kernel.table.Keys <= old(kernel.table.Keys) + Want(fetched.value).Keys
    {
      if fetched.None? {
        return false;
      }
      ok := ApplyRules(fetched.value);
      if !ok {
        return;
      }
      var changes;
      ok, changes := ApplyPeers(fetched.value);
      NewOnesMet(old(kernel.arrivals), kernel.arrivals, kernel.rules, kernel.late, Want(fetched.value));
      if !ok {
        return;
      }
      lastSyncUnix := Unix(finish);
      completed := completed + [finish];
      assert finish in completed;
    }

    /** After a complete cycle, however many with the same list or a failed poll give neither an
        nft nor a wg command that changes anything. */
    method SyncAgain(peers: seq<Peer>, cycles: seq<Cycle>)
      requires Valid() && DistinctKeys(peers) && DisjointAddresses(peers) && InSync(peers)
      requires forall c | c in cycles :: c.0.Some? ==> c.0.value == peers
      modifies this, kernel
      ensures Valid() && InSync(peers) && kernel.rules == old(kernel.rules)
      ensures Untouched(old(kernel.arrivals), old(kernel.commands))
    {
      for i := 0 to |cycles|
        invariant Valid() && InSync(peers) && kernel.rules == old(kernel.rules)
        invariant Untouched(old(kernel.arrivals), old(kernel.commands))
      {
        assert cycles[i] in cycles;
        var ok := SyncOnce(cycles[i].0, cycles[i].1);
      }
    }

    /** What a complete cycle leaves: the ruleset and the table of its list. */
    ghost predicate Reflects(cycle: Cycle)
      reads kernel
    {
      cycle.0.Some? && kernel.rules == Some(Render(cycle.0.value, options)) && kernel.table == Want(cycle.0.value)
    }

    method RunCycle(feed: seq<Cycle>, n: nat, ghost marks: seq<nat>) returns (ok: bool)
      requires n < |feed| && |marks| == n
      requires Valid() && Sound(feed[n]) && AddedBy(feed, marks, kernel.arrivals, options)
      modifies this, kernel
      ensures Valid() && (ok ==> (Reflects(feed[n]) <==> !kernel.late))
      ensures AddedBy(feed, marks + [|kernel.arrivals|], kernel.arrivals, options)
    {
      ghost var before := kernel.arrivals;
      ok := SyncOnce(feed[n].0, feed[n].1);
      OneMoreCycle(feed, marks, before, kernel.arrivals, options);
    }

    /**
     * Any run of cycles; cycle `n` added the arrivals up to `marks[n]`. Whatever
     * fails, each of them is wanted by that cycle's list, and met the ruleset
     * rendered from it exactly when no nft that reported failure had put
     * another one there.
     */
    method Run(feed: seq<Cycle>) returns (okay: seq<bool>, ghost marks: seq<nat>)
      requires Valid() && kernel.arrivals == [] && forall c | c in feed :: Sound(c)
      modifies this, kernel
      ensures Valid() && |okay| == |marks| == |feed| && AddedBy(feed, marks, kernel.arrivals, options)
      ensures feed != [] && okay[|feed| - 1] ==> (Reflects(feed[|feed| - 1]) <==> !kernel.late)
    {
      okay, marks := [], [];
      for n := 0 to |feed|
        invariant Valid() && |okay| == |marks| == n && AddedBy(feed, marks, kernel.arrivals, options)
        invariant n != 0 && okay[n - 1] ==> (Reflects(feed[n - 1]) <==> !kernel.late)
      {
        assert feed[n] in feed;
        var ok := RunCycle(feed, n, marks);
        okay, marks := okay + [ok], marks + [|kernel.arrivals|];
      }
    }
  }

  predicate Sound(c: Cycle) {
    c.0.Some? ==> DistinctKeys(c.0.value) && DisjointAddresses(c.0.value)
  }

  /** Where the stretch of cycle `n` begins. */
  function From(marks: seq<nat>, n: nat): nat
    requires n <= |marks|
  {
    if n == 0 then 0 else marks[n - 1]
  }

  /** Every entry past the old log is wanted and met the ruleset. */
  lemma {:induction false} NewOnesMet(before: seq<Arrival>, after: seq<Arrival>, rules: Option<Ruleset>, late: bool, want: WgTable)
    requires Met(before, after, rules, late, want)
    ensures |before| <= |after| && after[..|before|] == before
    ensures forall j | |before| <= j < |after| ::
              after[j] == Arrival(after[j].publicKey, rules, late) && after[j].publicKey in want
  {
    if after != before {
      NewOnesMet(before, after[..|after| - 1], rules, late, want);
    }
  }

  /** Arrival `a` is wanted by the list, and met its ruleset unless a failed nft had put another there. */
  ghost predicate Wanted(peers: seq<Peer>, a: Arrival, o: Options) {
    a.publicKey in Want(peers) && (a.rules == Some(Render(peers, o)) <==> !a.late)
  }

  /** What one cycle adds to the log. */
  ghost predicate CycleLog(peers: seq<Peer>, o: Options, before: seq<Arrival>, after: seq<Arrival>) {
    |before| <= |after| && after[..|before|] == before && forall j | |before| <= j < |after| :: Wanted(peers, after[j], o)
  }

  /** Arrival `a` is explained by the list of its cycle. */
  ghost predicate Explained(cycle: Cycle, a: Arrival, o: Options) {
    cycle.0.Some? && Wanted(cycle.0.value, a, o)
  }

  /** The log falls into one stretch per cycle so far, each explained by that cycle's list. */
  ghost predicate AddedBy(feed: seq<Cycle>, marks: seq<nat>, log: seq<Arrival>, o: Options) {
    && |marks| <= |feed| && From(marks, |marks|) == |log|
    && (forall n | 0 <= n < |marks| :: From(marks, n) <= marks[n] <= |log|)
    && forall n, j | 0 <= n < |marks| && From(marks, n) <= j < marks[n] :: Explained(feed[n], log[j], o)
  }

  lemma OneMoreCycle(feed: seq<Cycle>, marks: seq<nat>, before: seq<Arrival>, after: seq<Arrival>, o: Options)
    requires AddedBy(feed, marks, before, o) && |marks| < |feed|
    requires var cycle := feed[|marks|];
             if cycle.0.Some? then CycleLog(cycle.0.value, o, before, after) else after == before
    ensures AddedBy(feed, marks + [|after|], after, o)
  {
    var cycle, ends := feed[|marks|], marks + [|after|];
    assert after[..|before|] == before;
    forall n | 0 <= n < |ends| ensures From(ends, n) <= ends[n] <= |after| {
      assert From(ends, n) == From(marks, n);
    }
    forall n, j | 0 <= n < |ends| && From(ends, n) <= j < ends[n] ensures Explained(feed[n], after[j], o) {
      assert From(ends, n) == From(marks, n);
      if n < |marks| {
        assert Explained(feed[n], before[j], o) && after[j] == before[j];
      }
    }
  }
}
