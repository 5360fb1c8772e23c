/**
 * Every run of registrations, rotations and revocations. RotateKey and Revoke
 * look at the device before their transaction, so the look and the commit are
 * separate steps and other transactions may commit in between.
 */
module Lifecycle {
  import opened Net
  import opened Allocator
  import opened Allocator6
  import opened Devices

  datatype Pending = Nothing | Rotating(device: string, key: string) | Revoking(device: string)

  datatype State = State(tables: Tables, pending: map<nat, Pending>)

  const Initial := State(Tables(map[], []), map[])

  datatype Step =
    | Register(id: string, user: string, install: string, key: string, gate: Attestation)
    | LookRotate(proc: nat, id: string, key: string)
    | CommitRotate(proc: nat)
    | LookRevoke(proc: nat, id: string)
    | CommitRevoke(proc: nat)

  function At(s: State, proc: nat): Pending {
    if proc in s.pending then s.pending[proc] else Nothing
  }

  /** For Register, `id` is the install's existing device, or a fresh id if it has none. */
  predicate Enabled(s: State, step: Step) {
    match step
    case Register(id, user, install, _, _) =>
      InstalledAs(s.tables, id, user, install)
      || (id !in s.tables.devices && forall d | d in s.tables.devices :: !InstalledAs(s.tables, d, user, install))
    case LookRotate(p, id, _) => At(s, p).Nothing? && MayRotate(s.tables, id)
    case CommitRotate(p) => At(s, p).Rotating?
    case LookRevoke(p, id) => At(s, p).Nothing? && MayRevoke(s.tables, id)
    case CommitRevoke(p) => At(s, p).Revoking?
  }

  function OrElse(o: Option<Tables>, t: Tables): Tables {
    if o.Some? then o.value else t
  }

  function Apply(pools: Pools, s: State, step: Step): State
    requires Enabled(s, step)
  {
    var t := s.tables;
    match step
    case Register(id, user, install, key, gate) =>
      s.(tables := OrElse(if id in t.devices then RegisterAgain(pools, t, id, key, gate)
                          else RegisterNew(pools, t, id, user, install, key, gate), t))
    case LookRotate(p, id, key) => s.(pending := s.pending[p := Rotating(id, key)])
    case CommitRotate(p) =>
      State(OrElse(Rotate(pools, t, At(s, p).device, At(s, p).key), t), s.pending[p := Nothing])
    case LookRevoke(p, id) => s.(pending := s.pending[p := Revoking(id)])
    case CommitRevoke(p) => State(Revoke(t, At(s, p).device), s.pending[p := Nothing])
  }

  predicate Runs(pools: Pools, s: State, steps: seq<Step>)
    decreases steps
  {
    steps == [] || (Enabled(s, steps[0]) && Runs(pools, Apply(pools, s, steps[0]), steps[1..]))
  }

  function After(pools: Pools, s: State, steps: seq<Step>): State
    requires Runs(pools, s, steps)
    decreases steps
  {
    if steps == [] then s else After(pools, Apply(pools, s, steps[0]), steps[1..])
  }

  // ----- Invariants -------------------------------------------------------------------

  predicate Clash(a: KeyRow, b: KeyRow) {
    !a.revoked && !b.revoked &&
    (a.device == b.device || a.ipv4 == b.ipv4 || (a.ipv6.Some? && a.ipv6 == b.ipv6))
  }

  /** At most one active key per device, and no shared address between active keys. */
  predicate NoClash(keys: seq<KeyRow>) {
    forall i, j | 0 <= i < j < |keys| :: !Clash(keys[i], keys[j])
  }

  predicate DistinctPublicKeys(keys: seq<KeyRow>) {
    forall i, j | 0 <= i < j < |keys| :: keys[i].publicKey != keys[j].publicKey
  }

  predicate InPools(pools: Pools, k: KeyRow) {
    && HostOf(pools.v4, Addr(V4, k.ipv4))
    && (k.ipv6.Some? ==> pools.v6.Some? && Contains(pools.v6.value, Addr(V6, k.ipv6.value)))
  }

  predicate UniqueInstalls(t: Tables) {
    forall d, e | d in t.devices && e in t.devices
                  && t.devices[d].user == t.devices[e].user && t.devices[d].install == t.devices[e].install :: d == e
  }

  predicate PoolsOk(pools: Pools) {
    MaskedPool4(pools.v4) && (pools.v6.Some? ==> MaskedPool6(pools.v6.value))
  }

  predicate Inv(pools: Pools, t: Tables) {
    && NoClash(t.keys) && DistinctPublicKeys(t.keys) && UniqueInstalls(t)
    && forall k | k in t.keys :: InPools(pools, k) && k.device in t.devices
  }

  /** A revoked device holds no active key. */
  predicate RevokedAreKeyless(t: Tables) {
    forall k | k in t.keys && !k.revoked && k.device in t.devices :: !t.devices[k.device].deleted
  }

  // ----- One transaction ----------------------------------------------------------------

  lemma RevokeKeysKeeps(pools: Pools, t: Tables, id: string)
    requires Inv(pools, t)
    ensures Inv(pools, t.(keys := RevokeAllKeys(t.keys, id)))
    ensures forall k | k in RevokeAllKeys(t.keys, id) :: k.device == id ==> k.revoked
  {
    var keys := RevokeAllKeys(t.keys, id);
    forall i, j | 0 <= i < j < |keys| ensures !Clash(keys[i], keys[j]) {
      assert !Clash(t.keys[i], t.keys[j]);
    }
    forall k | k in keys ensures InPools(pools, k) && k.device in t.devices {
      var i :| 0 <= i < |keys| && keys[i] == k;
      assert t.keys[i] in t.keys;
    }
  }

  /** An address that may be handed to `id`: free among the active keys, and in its pool. */
  predicate Free4(pools: Pools, keys: seq<KeyRow>, v: Option<nat>) {
    v.Some? ==> v.value !in Used4(keys) && HostOf(pools.v4, Addr(V4, v.value))
  }

  predicate Free6(pools: Pools, keys: seq<KeyRow>, v: Option<nat>) {
    v.Some? ==> v.value !in Used6(keys) && pools.v6.Some? && Contains(pools.v6.value, Addr(V6, v.value))
  }

  lemma AllocatedIsFree(pools: Pools, keys: seq<KeyRow>, keep4: Option<nat>, keep6: Option<nat>)
    requires PoolsOk(pools) && Free4(pools, keys, keep4) && (pools.v6.Some? ==> Free6(pools, keys, keep6))
    ensures Free4(pools, keys, Address4(pools, keys, keep4))
    ensures Address6(pools, keys, keep6).Some? ==> Free6(pools, keys, Address6(pools, keys, keep6).value)
  {
    Pick4FromMaskedPool(Used4(keys), pools.v4);
    if pools.v6.Some? {
      Pick6FromMaskedPool(Used6(keys), pools.v6.value);
    }
  }

  lemma IssueKeeps(pools: Pools, t: Tables, id: string, key: string, keep4: Option<nat>, keep6: Option<nat>)
    requires PoolsOk(pools) && Inv(pools, t) && id in t.devices
    requires forall k | k in t.keys :: k.device == id ==> k.revoked
    requires Free4(pools, t.keys, keep4) && (pools.v6.Some? ==> Free6(pools, t.keys, keep6))
    ensures match Issue(pools, t.keys, id, key, keep4, keep6)
            case Some(keys) => Inv(pools, t.(keys := keys))
            case None => true
  {
    AllocatedIsFree(pools, t.keys, keep4, keep6);
    match Issue(pools, t.keys, id, key, keep4, keep6)
    case None =>
    case Some(keys) =>
      var n := |t.keys|;
      forall i | 0 <= i < n ensures !Clash(keys[i], keys[n]) {
        assert t.keys[i] in t.keys;
        if !t.keys[i].revoked {
          assert t.keys[i].ipv4 in Used4(t.keys);
          assert t.keys[i].ipv6.Some? ==> t.keys[i].ipv6.value in Used6(t.keys);
        }
      }
  }

  lemma {:induction false} ActiveKeyIsTheOne(keys: seq<KeyRow>, id: string)
    ensures match ActiveKey(keys, id)
            case Some(k) => k in keys && IsActiveKeyOf(k, id)
            case None => forall k | k in keys :: !IsActiveKeyOf(k, id)
  {
    if keys != [] && !IsActiveKeyOf(keys[|keys| - 1], id) {
      ActiveKeyIsTheOne(keys[..|keys| - 1], id);
      assert keys == keys[..|keys| - 1] + [keys[|keys| - 1]];
    }
  }

  /** Once the device's own keys are revoked, nobody else holds the addresses it had. */
  lemma OwnAddressesFreed(pools: Pools, t: Tables, id: string, k: KeyRow)
    requires Inv(pools, t) && k in t.keys && IsActiveKeyOf(k, id)
    ensures var keys := RevokeAllKeys(t.keys, id); Free4(pools, keys, Some(k.ipv4)) && Free6(pools, keys, k.ipv6)
  {
    var keys := RevokeAllKeys(t.keys, id);
    var i :| 0 <= i < |t.keys| && t.keys[i] == k;
    forall j | 0 <= j < |keys| && !keys[j].revoked ensures keys[j].ipv4 != k.ipv4 && (k.ipv6.Some? ==> keys[j].ipv6 != k.ipv6) {
      if i < j {
        assert !Clash(t.keys[i], t.keys[j]);
      } else if j < i {
        assert !Clash(t.keys[j], t.keys[i]);
      }
    }
  }

  lemma RotateKeeps(pools: Pools, t: Tables, id: string, key: string)
    requires PoolsOk(pools) && Inv(pools, t) && id in t.devices
    ensures Rotate(pools, t, id, key).Some? ==> Inv(pools, Rotate(pools, t, id, key).value)
  {
    RevokeKeysKeeps(pools, t, id);
    ActiveKeyIsTheOne(t.keys, id);
    var u := t.(keys := RevokeAllKeys(t.keys, id));
    match ActiveKey(t.keys, id)
    case Some(k) =>
      OwnAddressesFreed(pools, t, id, k);
      IssueKeeps(pools, u, id, key, Some(k.ipv4), k.ipv6);
    case None =>
      IssueKeeps(pools, u, id, key, None, None);
  }

  lemma RegisterKeeps(pools: Pools, t: Tables, id: string, user: string, install: string, key: string, gate: Attestation)
    requires PoolsOk(pools) && Inv(pools, t)
    requires Enabled(State(t, map[]), Register(id, user, install, key, gate))
    ensures Inv(pools, Apply(pools, State(t, map[]), Register(id, user, install, key, gate)).tables)
  {
    if id in t.devices {
      RevokeKeysKeeps(pools, t, id);
      var u := Tables(t.devices[id := t.devices[id].(status := Active, deleted := false, policy := None)], RevokeAllKeys(t.keys, id));
      assert Inv(pools, u);
      IssueKeeps(pools, u, id, key, None, None);
    } else {
      var row := DeviceRow(user, install, if gate == Attested then Active else PendingAttest, false, None);
      var u := t.(devices := t.devices[id := row]);
      assert UniqueInstalls(u) by {
        forall d | d in t.devices ensures !InstalledAs(t, d, user, install) {
        }
      }
      IssueKeeps(pools, u, id, key, None, None);
    }
  }

  // ----- Every run ------------------------------------------------------------------------

  predicate Known(s: State) {
    forall p | p in s.pending :: s.pending[p].Rotating? || s.pending[p].Revoking? ==> s.pending[p].device in s.tables.devices
  }

  lemma StepKeeps(pools: Pools, s: State, step: Step)
    requires PoolsOk(pools) && Inv(pools, s.tables) && Known(s) && Enabled(s, step)
    ensures Inv(pools, Apply(pools, s, step).tables) && Known(Apply(pools, s, step))
  {
    match step
    case Register(id, user, install, key, gate) => RegisterKeeps(pools, s.tables, id, user, install, key, gate);
    case LookRotate(_, _, _) =>
    case CommitRotate(p) => RotateKeeps(pools, s.tables, At(s, p).device, At(s, p).key);
    case LookRevoke(_, _) =>
    case CommitRevoke(p) => RevokeKeysKeeps(pools, s.tables, At(s, p).device);
  }

  /**
   * Over every interleaving: one active key per device, distinct active
   * addresses of both families, every address inside its pool and off the
   * network, gateway and broadcast addresses.
   */
  lemma {:induction false} EveryRunKeeps(pools: Pools, s: State, steps: seq<Step>)
    requires PoolsOk(pools) && Inv(pools, s.tables) && Known(s) && Runs(pools, s, steps)
    ensures Inv(pools, After(pools, s, steps).tables)
    decreases steps
  {
    if steps != [] {
      StepKeeps(pools, s, steps[0]);
      EveryRunKeeps(pools, Apply(pools, s, steps[0]), steps[1..]);
    }
  }

  lemma FromTheStart(pools: Pools, steps: seq<Step>)
    requires PoolsOk(pools) && Runs(pools, Initial, steps)
    ensures Inv(pools, After(pools, Initial, steps).tables)
  {
    EveryRunKeeps(pools, Initial, steps);
  }

  lemma OneActiveKey(keys: seq<KeyRow>, id: string, k: KeyRow, l: KeyRow)
    requires NoClash(keys) && k in keys && l in keys && IsActiveKeyOf(k, id) && IsActiveKeyOf(l, id)
    ensures k == l
  {
    var i :| 0 <= i < |keys| && keys[i] == k;
    var j :| 0 <= j < |keys| && keys[j] == l;
    assert Clash(k, l) && Clash(l, k);
  }

  /** Rotation keeps the addresses, changes the key, and leaves every other device alone. */
  lemma RotationKeepsAddresses(pools: Pools, t: Tables, id: string, key: string, k: KeyRow)
    requires PoolsOk(pools) && Inv(pools, t) && id in t.devices && k in t.keys && IsActiveKeyOf(k, id)
    requires Rotate(pools, t, id, key).Some?
    ensures var u := Rotate(pools, t, id, key).value;
            && u.devices == t.devices
            && ActiveKey(u.keys, id).Some?
            && ActiveKey(u.keys, id).value.publicKey == key
            && ActiveKey(u.keys, id).value.ipv4 == k.ipv4
            && (pools.v6.Some? && k.ipv6.Some? ==> ActiveKey(u.keys, id).value.ipv6 == k.ipv6)
            && forall i | 0 <= i < |t.keys| && t.keys[i].device != id :: u.keys[i] == t.keys[i]
  {
    ActiveKeyIsTheOne(t.keys, id);
    var a := ActiveKey(t.keys, id).value;
    OneActiveKey(t.keys, id, k, a);
  }

  /** Registering a known install again: active, without policy, with one new key. */
  lemma ReRegistrationClearsPolicy(pools: Pools, t: Tables, id: string, key: string, gate: Attestation)
    requires id in t.devices && RegisterAgain(pools, t, id, key, gate).Some?
    ensures var u := RegisterAgain(pools, t, id, key, gate).value;
            && u.devices[id].policy == None && u.devices[id].status == Active && !u.devices[id].deleted
            && (forall d | d in t.devices && d != id :: u.devices[d] == t.devices[d])
            && ActiveKey(u.keys, id).Some? && ActiveKey(u.keys, id).value.publicKey == key
            && forall k | k in u.keys && IsActiveKeyOf(k, id) :: k.publicKey == key
  {
  }

  // ----- When a device is active ----------------------------------------------------------

  predicate Committed(pools: Pools, s: State, step: Step, id: string)
    requires Enabled(s, step)
  {
    step.Register? && step.id == id &&
    (if id in s.tables.devices then RegisterAgain(pools, s.tables, id, step.key, step.gate).Some?
     else RegisterNew(pools, s.tables, id, step.user, step.install, step.key, step.gate).Some?)
  }

  /** What the attestation gate said at each registration of a device that went through. */
  function Gates(pools: Pools, s: State, steps: seq<Step>, id: string): seq<Attestation>
    requires Runs(pools, s, steps)
    decreases steps
  {
    if steps == [] then []
    else (if Committed(pools, s, steps[0], id) then [steps[0].gate] else [])
         + Gates(pools, Apply(pools, s, steps[0]), steps[1..], id)
  }

  /** The device's row, given the gates of its registrations so far. */
  predicate StatusFollows(t: Tables, id: string, gates: seq<Attestation>) {
    && (id in t.devices <==> gates != [])
    && (id in t.devices && !t.devices[id].deleted ==>
          t.devices[id].status == if gates[0] == Attested || 2 <= |gates| then Active else PendingAttest)
  }

  lemma {:induction false} StatusFollowsRun(pools: Pools, s: State, steps: seq<Step>, id: string, gates: seq<Attestation>)
    requires Runs(pools, s, steps) && StatusFollows(s.tables, id, gates)
    ensures StatusFollows(After(pools, s, steps).tables, id, gates + Gates(pools, s, steps, id))
    decreases steps
  {
    if steps == [] {
      assert gates + [] == gates;
    } else {
      var t := Apply(pools, s, steps[0]);
      var more := if Committed(pools, s, steps[0], id) then [steps[0].gate] else [];
      StatusFollowsStep(pools, s, steps[0], id, gates);
      StatusFollowsRun(pools, t, steps[1..], id, gates + more);
      assert gates + more + Gates(pools, t, steps[1..], id) == gates + Gates(pools, s, steps, id);
    }
  }

  lemma StatusFollowsStep(pools: Pools, s: State, step: Step, id: string, gates: seq<Attestation>)
    requires Enabled(s, step) && StatusFollows(s.tables, id, gates)
    ensures StatusFollows(Apply(pools, s, step).tables, id,
                          gates + if Committed(pools, s, step, id) then [step.gate] else [])
  {
    assert gates + [] == gates;
  }

  /** A live device is active exactly when its first registration attested or it registered again:
      a second registration activates it whatever the gate said. */
  lemma ActiveExactlyWhen(pools: Pools, steps: seq<Step>, id: string)
    requires Runs(pools, Initial, steps)
    ensures var t, gates := After(pools, Initial, steps).tables, Gates(pools, Initial, steps, id);
            && (id in t.devices <==> gates != [])
            && (id in t.devices && !t.devices[id].deleted ==>
                  (t.devices[id].status == Active <==> gates[0] == Attested || 2 <= |gates|))
  {
    StatusFollowsRun(pools, Initial, steps, id, []);
    assert [] + Gates(pools, Initial, steps, id) == Gates(pools, Initial, steps, id);
  }

  // ----- Keys are never taken back --------------------------------------------------------

  /** Key rows are only added, and a revoked one stays revoked. */
  predicate Grew(was: seq<KeyRow>, now: seq<KeyRow>) {
    |was| <= |now| && forall i | 0 <= i < |was| ::
      now[i].device == was[i].device && now[i].publicKey == was[i].publicKey && (was[i].revoked ==> now[i].revoked)
  }

  lemma {:induction false} KeysGrow(pools: Pools, s: State, steps: seq<Step>)
    requires Runs(pools, s, steps)
    ensures Grew(s.tables.keys, After(pools, s, steps).tables.keys)
    decreases steps
  {
    if steps != [] {
      KeysGrow(pools, Apply(pools, s, steps[0]), steps[1..]);
    }
  }

  /** A deleted device stays deleted until it registers again. */
  lemma {:induction false} DeletedUntilRegistered(pools: Pools, s: State, steps: seq<Step>, id: string)
    requires Runs(pools, s, steps) && id in s.tables.devices && s.tables.devices[id].deleted
    requires forall x | x in steps && x.Register? :: x.id != id
    ensures id in After(pools, s, steps).tables.devices && After(pools, s, steps).tables.devices[id].deleted
    decreases steps
  {
    if steps != [] {
      assert steps[0] in steps;
      DeletedUntilRegistered(pools, Apply(pools, s, steps[0]), steps[1..], id);
    }
  }

  // ----- A revoked device's keys -------------------------------------------------------------

  /** No other device's active key holds this address. */
  predicate FreeFor4(t: Tables, id: string, v: nat) {
    forall k | k in t.keys && !k.revoked && k.device != id :: k.ipv4 != v
  }

  predicate FreeFor6(t: Tables, id: string, v: nat) {
    forall k | k in t.keys && !k.revoked && k.device != id :: k.ipv6 != Some(v)
  }

  /** The device still holds an address, or its pool has one left. */
  ghost predicate AddressLeft4(pools: Pools, t: Tables, id: string)
    requires PoolsOk(pools)
  {
    || (exists k :: k in t.keys && IsActiveKeyOf(k, id))
    || exists v: nat :: pools.v4.value + 2 <= v < pools.v4.value + Pow2(32 - pools.v4.bits) - 1 && FreeFor4(t, id, v)
  }

  ghost predicate AddressLeft6(pools: Pools, t: Tables, id: string)
    requires PoolsOk(pools)
  {
    || pools.v6.None?
    || (exists k :: k in t.keys && IsActiveKeyOf(k, id) && k.ipv6.Some?)
    || exists n: nat :: 2 <= n < LIMIT && InPool6(pools.v6.value, n) && FreeFor6(t, id, Candidate6(pools.v6.value.value, n))
  }

  lemma UsedByOthers(t: Tables, id: string, v: nat)
    ensures v !in Used4(RevokeAllKeys(t.keys, id)) <==> FreeFor4(t, id, v)
    ensures v !in Used6(RevokeAllKeys(t.keys, id)) <==> FreeFor6(t, id, v)
  {
    var keys := RevokeAllKeys(t.keys, id);
    forall k | k in t.keys && !k.revoked && k.device != id ensures k in keys {
      var i :| 0 <= i < |t.keys| && t.keys[i] == k;
      assert keys[i] == k;
    }
    forall k | k in keys && !k.revoked ensures k in t.keys && k.device != id {
      var i :| 0 <= i < |keys| && keys[i] == k;
      assert t.keys[i] == k;
    }
  }

  lemma Address4Left(pools: Pools, t: Tables, id: string)
    requires PoolsOk(pools)
    ensures var old4 := match ActiveKey(t.keys, id) case Some(k) => Some(k.ipv4) case None => None;
            Address4(pools, RevokeAllKeys(t.keys, id), old4).Some? <==> AddressLeft4(pools, t, id)
  {
    ActiveKeyIsTheOne(t.keys, id);
    var used := Used4(RevokeAllKeys(t.keys, id));
    Pick4FromMaskedPool(used, pools.v4);
    match Pick4(used, pools.v4)
    case Found(a) => UsedByOthers(t, id, a.value);
    case PoolExhausted =>
      forall v: nat | pools.v4.value + 2 <= v < pools.v4.value + Pow2(32 - pools.v4.bits) - 1 ensures !FreeFor4(t, id, v) {
        UsedByOthers(t, id, v);
      }
  }

  lemma Address6Left(pools: Pools, t: Tables, id: string)
    requires PoolsOk(pools) && NoClash(t.keys)
    ensures var old6 := match ActiveKey(t.keys, id) case Some(k) => k.ipv6 case None => None;
            Address6(pools, RevokeAllKeys(t.keys, id), old6).Some? <==> AddressLeft6(pools, t, id)
  {
    ActiveKeyIsTheOne(t.keys, id);
    if k :| k in t.keys && IsActiveKeyOf(k, id) && k.ipv6.Some? {
      OneActiveKey(t.keys, id, k, ActiveKey(t.keys, id).value);
    } else if pools.v6.Some? {
      var used, pool := Used6(RevokeAllKeys(t.keys, id)), pools.v6.value;
      Pick6FromMaskedPool(used, pool);
      match Pick6(used, pool)
      case Found(a) =>
        var n: nat :| 2 <= n < LIMIT && a.value == Candidate6(pool.value, n)
                 && forall j | 2 <= j < n :: Candidate6(pool.value, j) in used;
        ContainmentFailsPastTheEnd(pool, n);
        UsedByOthers(t, id, a.value);
      case PoolExhausted =>
        forall n: nat | 2 <= n < LIMIT && InPool6(pool, n) ensures !FreeFor6(t, id, Candidate6(pool.value, n)) {
          UsedByOthers(t, id, Candidate6(pool.value, n));
        }
    }
  }

  /** A rotation goes through exactly when the key is new and addresses are to be had. */
  lemma RotationGoesThrough(pools: Pools, t: Tables, id: string, key: string)
    requires PoolsOk(pools) && NoClash(t.keys)
    ensures Rotate(pools, t, id, key).Some? <==>
            !KnownKey(t.keys, key) && AddressLeft4(pools, t, id) && AddressLeft6(pools, t, id)
  {
    Address4Left(pools, t, id);
    Address6Left(pools, t, id);
    var keys := RevokeAllKeys(t.keys, id);
    assert KnownKey(keys, key) <==> KnownKey(t.keys, key) by {
      assert forall i | 0 <= i < |keys| :: keys[i].publicKey == t.keys[i].publicKey;
    }
  }

  // ----- The transactions, in columns -------------------------------------------------------

  /** The device's key rows are revoked, one unrevoked row with the new key is added, and no other row changes. */
  predicate Reissued(was: seq<KeyRow>, now: seq<KeyRow>, id: string, key: string) {
    && |now| == |was| + 1
    && now[|was|].device == id && now[|was|].publicKey == key && now[|was|].revoked == false
    && forall i | 0 <= i < |was| :: now[i] == if was[i].device == id then was[i].(revoked := true) else was[i]
  }

  /** The lowest address of the IPv4 pool, gateway and broadcast aside, that no other device holds. */
  ghost predicate Lowest4(pools: Pools, t: Tables, id: string, v: nat)
    requires PoolsOk(pools)
  {
    && pools.v4.value + 2 <= v < pools.v4.value + Pow2(32 - pools.v4.bits) - 1 && FreeFor4(t, id, v)
    && forall w: nat | pools.v4.value + 2 <= w < v :: !FreeFor4(t, id, w)
  }

  /** The same in the IPv6 pool, in the order of offsets; nothing when the tenant has no such pool. */
  ghost predicate Lowest6(pools: Pools, t: Tables, id: string, v: Option<nat>)
    requires PoolsOk(pools)
  {
    if pools.v6.None? then v == None
    else
      var base := pools.v6.value.value;
      v.Some? && exists n: nat :: 2 <= n < LIMIT && v.value == Candidate6(base, n) && FreeFor6(t, id, v.value)
                                  && forall m: nat | 2 <= m < n :: !FreeFor6(t, id, Candidate6(base, m))
  }

  ghost predicate FreshLeft4(pools: Pools, t: Tables, id: string)
    requires PoolsOk(pools)
  {
    exists v: nat :: pools.v4.value + 2 <= v < pools.v4.value + Pow2(32 - pools.v4.bits) - 1 && FreeFor4(t, id, v)
  }

  ghost predicate FreshLeft6(pools: Pools, t: Tables, id: string)
    requires PoolsOk(pools)
  {
    pools.v6.None? || exists n: nat :: 2 <= n < LIMIT && InPool6(pools.v6.value, n) && FreeFor6(t, id, Candidate6(pools.v6.value.value, n))
  }

  lemma Fresh4(pools: Pools, t: Tables, id: string)
    requires PoolsOk(pools)
    ensures var v := Address4(pools, RevokeAllKeys(t.keys, id), None);
            (v.Some? <==> FreshLeft4(pools, t, id)) && (v.Some? ==> Lowest4(pools, t, id, v.value))
  {
    var used := Used4(RevokeAllKeys(t.keys, id));
    Pick4FromMaskedPool(used, pools.v4);
    forall v: nat ensures v !in used <==> FreeFor4(t, id, v) {
      UsedByOthers(t, id, v);
    }
  }

  lemma Fresh6(pools: Pools, t: Tables, id: string)
    requires PoolsOk(pools)
    ensures var v := Address6(pools, RevokeAllKeys(t.keys, id), None);
            (v.Some? <==> FreshLeft6(pools, t, id)) && (v.Some? ==> Lowest6(pools, t, id, v.value))
  {
    if pools.v6.Some? {
      var used, pool := Used6(RevokeAllKeys(t.keys, id)), pools.v6.value;
      Pick6FromMaskedPool(used, pool);
      forall v: nat ensures v !in used <==> FreeFor6(t, id, v) {
        UsedByOthers(t, id, v);
      }
      match Pick6(used, pool)
      case Found(a) =>
        var n: nat :| 2 <= n < LIMIT && a.value == Candidate6(pool.value, n)
                 && forall j | 2 <= j < n :: Candidate6(pool.value, j) in used;
        ContainmentFailsPastTheEnd(pool, n);
      case PoolExhausted =>
    }
  }

  lemma RevokeKeepsKeys(keys: seq<KeyRow>, id: string, key: string)
    ensures KnownKey(RevokeAllKeys(keys, id), key) <==> exists k :: k in keys && k.publicKey == key
  {
    var revoked := RevokeAllKeys(keys, id);
    assert forall i | 0 <= i < |keys| :: revoked[i].publicKey == keys[i].publicKey;
    if k :| k in keys && k.publicKey == key {
      var i :| 0 <= i < |keys| && keys[i] == k;
      assert revoked[i].publicKey == key;
    }
    if i :| 0 <= i < |revoked| && revoked[i].publicKey == key {
      assert keys[i] in keys;
    }
  }

  lemma IssuedAfterRevoking(pools: Pools, t: Tables, id: string, key: string)
    requires PoolsOk(pools)
    ensures var o := Issue(pools, RevokeAllKeys(t.keys, id), id, key, None, None);
            && (o.Some? <==> (forall k | k in t.keys :: k.publicKey != key) && FreshLeft4(pools, t, id) && FreshLeft6(pools, t, id))
            && (o.Some? ==> && Reissued(t.keys, o.value, id, key)
                            && Lowest4(pools, t, id, o.value[|t.keys|].ipv4) && Lowest6(pools, t, id, o.value[|t.keys|].ipv6))
  {
    Fresh4(pools, t, id);
    Fresh6(pools, t, id);
    RevokeKeepsKeys(t.keys, id, key);
  }

  /** A registration is for the device that has this user's install, or for a fresh id when none has it. */
  lemma RegistersForInstall(s: State, id: string, user: string, install: string, key: string, gate: Attestation)
    ensures Enabled(s, Register(id, user, install, key, gate)) <==>
            || (id in s.tables.devices && s.tables.devices[id].user == user && s.tables.devices[id].install == install)
            || (id !in s.tables.devices && forall d | d in s.tables.devices ::
                  s.tables.devices[d].user != user || s.tables.devices[d].install != install)
  {
  }

  /** What a registration leaves when it goes through: one row of the device table and one new key. */
  ghost predicate Registered(pools: Pools, t: Tables, u: Tables, id: string, key: string, row: DeviceRow)
    requires PoolsOk(pools)
  {
    && u.devices.Keys == t.devices.Keys + {id} && u.devices[id] == row
    && (forall d | d in t.devices && d != id :: u.devices[d] == t.devices[d])
    && Reissued(t.keys, u.keys, id, key)
    && Lowest4(pools, t, id, u.keys[|t.keys|].ipv4) && Lowest6(pools, t, id, u.keys[|t.keys|].ipv6)
  }

  /** No gate refused, the key is new and addresses are left. */
  ghost predicate Registrable(pools: Pools, t: Tables, id: string, key: string, gate: Attestation)
    requires PoolsOk(pools)
  {
    gate != Refused && (forall k | k in t.keys :: k.publicKey != key) && FreshLeft4(pools, t, id) && FreshLeft6(pools, t, id)
  }

  /** A first registration: through exactly when registrable, active only if it attested. */
  lemma RegistersNew(pools: Pools, t: Tables, id: string, user: string, install: string, key: string, gate: Attestation)
    requires PoolsOk(pools) && Inv(pools, t) && id !in t.devices
    ensures var o := RegisterNew(pools, t, id, user, install, key, gate);
            && (o.Some? <==> Registrable(pools, t, id, key, gate))
            && (o.Some? ==> Registered(pools, t, o.value, id, key,
                                       DeviceRow(user, install, if gate == Attested then Active else PendingAttest, false, None)))
  {
    IssuedAfterRevoking(pools, t, id, key);
    assert RevokeAllKeys(t.keys, id) == t.keys;
  }

  /** A registration of a known install: the row is reactivated without policy, its owner and install kept. */
  lemma RegistersAgain(pools: Pools, t: Tables, id: string, key: string, gate: Attestation)
    requires PoolsOk(pools) && id in t.devices
    ensures var o := RegisterAgain(pools, t, id, key, gate);
            && (o.Some? <==> Registrable(pools, t, id, key, gate))
            && (o.Some? ==> Registered(pools, t, o.value, id, key,
                                       DeviceRow(t.devices[id].user, t.devices[id].install, Active, false, None)))
  {
    IssuedAfterRevoking(pools, t, id, key);
  }

  /** A rotation of a device with an active key: nothing but the key rows changes, and the addresses stay. */
  lemma RotatesInPlace(pools: Pools, t: Tables, id: string, key: string, k: KeyRow)
    requires PoolsOk(pools) && Inv(pools, t) && k in t.keys && k.device == id && !k.revoked && Rotate(pools, t, id, key).Some?
    ensures var u := Rotate(pools, t, id, key).value;
            && u.devices == t.devices && Reissued(t.keys, u.keys, id, key) && u.keys[|t.keys|].ipv4 == k.ipv4
            && (pools.v6.None? ==> u.keys[|t.keys|].ipv6 == None)
            && (pools.v6.Some? && k.ipv6.Some? ==> u.keys[|t.keys|].ipv6 == k.ipv6)
            && (pools.v6.Some? && k.ipv6.None? ==> Lowest6(pools, t, id, u.keys[|t.keys|].ipv6))
  {
    ActiveKeyIsTheOne(t.keys, id);
    OneActiveKey(t.keys, id, k, ActiveKey(t.keys, id).value);
    Fresh6(pools, t, id);
  }

  /** A rotation of a device without one gets fresh addresses. */
  lemma RotatesAfresh(pools: Pools, t: Tables, id: string, key: string)
    requires PoolsOk(pools) && Inv(pools, t) && (forall k | k in t.keys && k.device == id :: k.revoked)
    requires Rotate(pools, t, id, key).Some?
    ensures var u := Rotate(pools, t, id, key).value;
            && u.devices == t.devices && Reissued(t.keys, u.keys, id, key)
            && Lowest4(pools, t, id, u.keys[|t.keys|].ipv4) && Lowest6(pools, t, id, u.keys[|t.keys|].ipv6)
  {
    ActiveKeyIsTheOne(t.keys, id);
    IssuedAfterRevoking(pools, t, id, key);
  }

  /** A revocation: the row of a live device is marked, all its keys are revoked, and nothing else changes. */
  lemma RevokesInColumns(t: Tables, id: string)
    ensures var u := Revoke(t, id);
            && u.devices.Keys == t.devices.Keys && |u.keys| == |t.keys|
            && (id in t.devices && !t.devices[id].deleted ==>
                  && u.devices[id].status == Devices.Revoked && u.devices[id].deleted
                  && u.devices[id].user == t.devices[id].user && u.devices[id].install == t.devices[id].install)
            && (forall d | d in t.devices && (d != id || t.devices[d].deleted) :: u.devices[d] == t.devices[d])
            && forall i | 0 <= i < |t.keys| ::
                 u.keys[i] == if t.keys[i].device == id then t.keys[i].(revoked := true) else t.keys[i]
  {
  }

  /** Only one step can give a revoked device a key: a rotation looked up before the revocation,
      with a new key and an address to be had. */
  lemma OnlyALateRotationRevivesAKey(pools: Pools, s: State, step: Step)
    requires PoolsOk(pools) && Inv(pools, s.tables) && Known(s) && Enabled(s, step) && RevokedAreKeyless(s.tables)
    ensures RevokedAreKeyless(Apply(pools, s, step).tables) <==>
            !(step.CommitRotate? &&
              var id, key := At(s, step.proc).device, At(s, step.proc).key;
              && s.tables.devices[id].deleted && !KnownKey(s.tables.keys, key)
              && AddressLeft4(pools, s.tables, id) && AddressLeft6(pools, s.tables, id))
  {
    var t, u := s.tables, Apply(pools, s, step).tables;
    var touched := if step.Register? then step.id
                   else if step.CommitRotate? || step.CommitRevoke? then At(s, step.proc).device else "";
    forall k | k in RevokeAllKeys(t.keys, touched) && !k.revoked ensures k in t.keys
    {
    }
    if step.CommitRotate? {
      var id, key := At(s, step.proc).device, At(s, step.proc).key;
      RotationGoesThrough(pools, t, id, key);
      if Rotate(pools, t, id, key).Some? {
        var last := u.keys[|u.keys| - 1];
        assert last in u.keys && last.device == id && !last.revoked;
      }
    }
  }

  /** Every rotation commits right after its own look. */
  predicate PromptRotations(steps: seq<Step>) {
    forall i | 0 <= i < |steps| && steps[i].CommitRotate? ::
      0 < i && steps[i - 1].LookRotate? && steps[i - 1].proc == steps[i].proc
  }

  /** When nothing comes between a rotation's look and its commit, revoked devices stay keyless. */
  lemma {:induction false} PromptRotationsKeepRevokedKeyless(pools: Pools, s: State, steps: seq<Step>)
    requires PoolsOk(pools) && Inv(pools, s.tables) && Known(s) && Runs(pools, s, steps)
    requires RevokedAreKeyless(s.tables) && PromptRotations(steps)
    ensures RevokedAreKeyless(After(pools, s, steps).tables)
    decreases steps
  {
    if steps == [] {
    } else if 1 < |steps| && steps[1].CommitRotate? {
      assert steps[0].LookRotate? && steps[0].proc == steps[1].proc;
      var mid := Apply(pools, s, steps[0]);
      StepKeeps(pools, s, steps[0]);
      OnlyALateRotationRevivesAKey(pools, mid, steps[1]);
      StepKeeps(pools, mid, steps[1]);
      var rest := steps[1..][1..];
      assert rest == steps[2..] && steps[1..][0] == steps[1];
      forall i | 0 <= i < |rest| && rest[i].CommitRotate?
        ensures 0 < i && rest[i - 1].LookRotate? && rest[i - 1].proc == rest[i].proc
      {
        assert steps[i + 2] == rest[i];
        assert steps[i + 1].LookRotate?;
      }
      PromptRotationsKeepRevokedKeyless(pools, Apply(pools, mid, steps[1]), rest);
    } else {
      OnlyALateRotationRevivesAKey(pools, s, steps[0]);
      StepKeeps(pools, s, steps[0]);
      var rest := steps[1..];
      forall i | 0 <= i < |rest| && rest[i].CommitRotate?
        ensures 0 < i && rest[i - 1].LookRotate? && rest[i - 1].proc == rest[i].proc
      {
        assert steps[i + 1] == rest[i];
      }
      PromptRotationsKeepRevokedKeyless(pools, Apply(pools, s, steps[0]), rest);
    }
  }

  lemma OneStepFirst(pools: Pools, s: State, step: Step, rest: seq<Step>)
    requires Enabled(s, step) && Runs(pools, Apply(pools, s, step), rest)
    ensures Runs(pools, s, [step] + rest) && After(pools, s, [step] + rest) == After(pools, Apply(pools, s, step), rest)
  {
    assert ([step] + rest)[1..] == rest;
  }

  lemma FirstRegistration(pools: Pools, key: string)
    requires PoolsOk(pools) && pools.v6.None?
    ensures var s := Apply(pools, Initial, Register("d", "u", "i", key, Attested));
            && "d" in s.tables.devices && !s.tables.devices["d"].deleted && s.tables.devices["d"].status == Active
            && |s.tables.keys| == 1 && s.tables.keys[0].device == "d" && s.tables.keys[0].publicKey == key
            && s.pending == map[]
  {
    MaskedPoolDoesNotWrap(pools.v4);
    Pick4FromMaskedPool({}, pools.v4);
    assert pools.v4.value + 2 !in {};
    assert Used4([]) == {};
  }

  lemma RotationOfTheRevoked(pools: Pools, t: Tables, key: string)
    requires PoolsOk(pools) && pools.v6.None? && |t.keys| == 1 && t.keys[0].device == "d" && t.keys[0].publicKey != key
    ensures Rotate(pools, t, "d", key).Some?
  {
    assert FreeFor4(t, "d", pools.v4.value + 2);
    MaskedPoolDoesNotWrap(pools.v4);
    RotationGoesThrough(pools, t, "d", key);
  }

  /** Without that promptness it happens: look for a rotation, revoke, commit the rotation. */
  lemma ALateRotationCanReviveAKey(pools: Pools)
    requires PoolsOk(pools) && pools.v6.None?
    ensures exists steps :: Runs(pools, Initial, steps) && !RevokedAreKeyless(After(pools, Initial, steps).tables)
  {
    var a, b, c := Register("d", "u", "i", "k1", Attested), LookRotate(1, "d", "k2"), LookRevoke(2, "d");
    var d, e := CommitRevoke(2), CommitRotate(1);
    FirstRegistration(pools, "k1");
    var s1 := Apply(pools, Initial, a);
    var s2 := Apply(pools, s1, b);
    var s3 := Apply(pools, s2, c);
    var s4 := Apply(pools, s3, d);
    RotationOfTheRevoked(pools, s4.tables, "k2");
    var s5 := Apply(pools, s4, e);
    assert s5.tables.keys[1] in s5.tables.keys && !s5.tables.keys[1].revoked;
    OneStepFirst(pools, s4, e, []);
    OneStepFirst(pools, s3, d, [e]);
    OneStepFirst(pools, s2, c, [d] + [e]);
    OneStepFirst(pools, s1, b, [c] + ([d] + [e]));
    OneStepFirst(pools, Initial, a, [b] + ([c] + ([d] + [e])));
  }
}
