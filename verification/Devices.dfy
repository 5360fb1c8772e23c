/** The device and key tables and the three transactions that change them. */
module Devices {
  import opened Net
  import opened Allocator
  import opened Allocator6

  datatype Status = PendingAttest | Active | Suspended | Revoked

  datatype DeviceRow = DeviceRow(user: string, install: string, status: Status, deleted: bool, policy: Option<string>)

  /** One device_keys row; rows are only ever appended, the last one is the newest. */
  datatype KeyRow = KeyRow(device: string, publicKey: string, ipv4: nat, ipv6: Option<nat>, revoked: bool)

  /** A tenant's address pools, given by their masked network addresses. */
  datatype Pools = Pools(v4: Prefix, v6: Option<Prefix>)

  datatype Tables = Tables(devices: map<string, DeviceRow>, keys: seq<KeyRow>)

  /** What the attestation gates said: an error aborts the whole transaction. */
  datatype Attestation = Refused | Unattested | Attested

  // ----- The statements -----------------------------------------------------------

  predicate IsActiveKeyOf(k: KeyRow, device: string) {
    k.device == device && !k.revoked
  }

  function RevokeAllKeys(keys: seq<KeyRow>, device: string): seq<KeyRow> {
    seq(|keys|, i requires 0 <= i < |keys| =>
      if keys[i].device == device then keys[i].(revoked := true) else keys[i])
  }

  /** The newest unrevoked key. */
  function ActiveKey(keys: seq<KeyRow>, device: string): Option<KeyRow> {
    if keys == [] then None
    else if IsActiveKeyOf(keys[|keys| - 1], device) then Some(keys[|keys| - 1])
    else ActiveKey(keys[..|keys| - 1], device)
  }

  function Used4(keys: seq<KeyRow>): set<nat> {
    set k | k in keys && !k.revoked :: k.ipv4
  }

  function Used6(keys: seq<KeyRow>): set<nat> {
    set k | k in keys && !k.revoked && k.ipv6.Some? :: k.ipv6.value
  }

  predicate KnownKey(keys: seq<KeyRow>, publicKey: string) {
    exists i :: 0 <= i < |keys| && keys[i].publicKey == publicKey
  }

  function Address4(pools: Pools, keys: seq<KeyRow>, keep: Option<nat>): Option<nat> {
    if keep.Some? then keep
    else match Pick4(Used4(keys), pools.v4)
      case Found(a) => Some(a.value)
      case _ => None
  }

  /** None is an error; Some(None) is "this tenant has no IPv6". */
  function Address6(pools: Pools, keys: seq<KeyRow>, keep: Option<nat>): Option<Option<nat>> {
    if pools.v6.None? then Some(None)
    else if keep.Some? then Some(keep)
    else match Pick6(Used6(keys), pools.v6.value)
      case Found(a) => Some(Some(a.value))
      case _ => None
  }

  /** Allocate unless an address is kept, then insert; the public key must be new. */
  function Issue(pools: Pools, keys: seq<KeyRow>, device: string, publicKey: string, keep4: Option<nat>, keep6: Option<nat>)
    : Option<seq<KeyRow>>
  {
    var v4, v6 := Address4(pools, keys, keep4), Address6(pools, keys, keep6);
    if v4.None? || v6.None? || KnownKey(keys, publicKey) then None
    else Some(keys + [KeyRow(device, publicKey, v4.value, v6.value, false)])
  }

  // ----- The transactions; None is a rollback ---------------------------------------

  predicate InstalledAs(t: Tables, id: string, user: string, install: string) {
    id in t.devices && t.devices[id].user == user && t.devices[id].install == install
  }

  /** First registration: the device becomes active only if it attested. */
  function RegisterNew(pools: Pools, t: Tables, id: string, user: string, install: string, key: string, gate: Attestation)
    : Option<Tables>
  {
    var row := DeviceRow(user, install, if gate == Attested then Active else PendingAttest, false, None);
    match Issue(pools, t.keys, id, key, None, None)
    case Some(keys) => if gate == Refused then None else Some(Tables(t.devices[id := row], keys))
    case None => None
  }

  /** Registration of a known install: reactivated without policy, old keys revoked, fresh addresses. */
  function RegisterAgain(pools: Pools, t: Tables, id: string, key: string, gate: Attestation): Option<Tables>
    requires id in t.devices
  {
    var row := t.devices[id].(status := Active, deleted := false, policy := None);
    match Issue(pools, RevokeAllKeys(t.keys, id), id, key, None, None)
    case Some(keys) => if gate == Refused then None else Some(Tables(t.devices[id := row], keys))
    case None => None
  }

  /** The check RotateKey and Revoke make before their transaction. */
  predicate MayRotate(t: Tables, id: string) {
    id in t.devices && !t.devices[id].deleted && t.devices[id].status != Revoked
  }

  predicate MayRevoke(t: Tables, id: string) {
    id in t.devices && !t.devices[id].deleted
  }

  function Rotate(pools: Pools, t: Tables, id: string, key: string): Option<Tables> {
    var old4 := match ActiveKey(t.keys, id) case Some(k) => Some(k.ipv4) case None => None;
    var old6 := match ActiveKey(t.keys, id) case Some(k) => k.ipv6 case None => None;
    match Issue(pools, RevokeAllKeys(t.keys, id), id, key, old4, old6)
    case Some(keys) => Some(t.(keys := keys))
    case None => None
  }

  function Revoke(t: Tables, id: string): Tables {
    Tables(
      if id in t.devices && !t.devices[id].deleted
      then t.devices[id := t.devices[id].(status := Revoked, deleted := true)] else t.devices,
      RevokeAllKeys(t.keys, id))
  }

  // ----- The service ------------------------------------------------------------------

  class Service {
    const pools: Pools
    var devices: map<string, DeviceRow>
    var keys: seq<KeyRow>

    function Rows(): Tables
      reads this
    {
      Tables(devices, keys)
    }

    constructor (pools: Pools)
      ensures this.pools == pools && Rows() == Tables(map[], [])
    {
      this.pools, devices, keys := pools, map[], [];
    }

    method RevokeKeysOf(id: string)
      modifies this`keys
      ensures keys == RevokeAllKeys(old(keys), id)
    {
      var i := 0;
      while i < |keys|
        invariant i <= |keys| == |old(keys)|
        invariant forall j | 0 <= j < i :: keys[j] == RevokeAllKeys(old(keys), id)[j]
        invariant forall j | i <= j < |keys| :: keys[j] == old(keys)[j]
      {
        if keys[i].device == id && !keys[i].revoked {
          keys := keys[i := keys[i].(revoked := true)];
        }
        i := i + 1;
      }
    }

    method FindActiveKey(id: string) returns (k: Option<KeyRow>)
      ensures k == ActiveKey(keys, id)
    {
      var n: nat := |keys|;
      assert keys[..n] == keys;
      while 0 < n
        invariant n <= |keys| && ActiveKey(keys[..n], id) == ActiveKey(keys, id)
      {
        assert keys[..n][..n - 1] == keys[..n - 1];
        if keys[n - 1].device == id && !keys[n - 1].revoked {
          return Some(keys[n - 1]);
        }
        n := n - 1;
      }
      k := None;
    }

    method AllocateAndIssue(id: string, key: string, keep4: Option<nat>, keep6: Option<nat>) returns (ok: bool)
      modifies this`keys
      ensures ok <==> Issue(pools, old(keys), id, key, keep4, keep6).Some?
      ensures keys == if ok then Issue(pools, old(keys), id, key, keep4, keep6).value else old(keys)
    {
      var v4, v6 := Address4(pools, keys, keep4), Address6(pools, keys, keep6);
      ok := v4.Some? && v6.Some? && !KnownKey(keys, key);
      if ok {
        keys := keys + [KeyRow(id, key, v4.value, v6.value, false)];
      }
    }

    method FindByInstall(user: string, install: string) returns (id: Option<string>)
      ensures id.Some? ==> id.value in devices && devices[id.value].user == user && devices[id.value].install == install
      ensures id.None? ==> forall d | d in devices :: devices[d].user != user || devices[d].install != install
      ensures id.Some? ==> InstalledAs(Rows(), id.value, user, install)
      ensures id.None? ==> forall d :: !InstalledAs(Rows(), d, user, install)
    {
      var rest := devices.Keys;
      while rest != {}
        invariant rest <= devices.Keys
        invariant forall d | d in devices && d !in rest :: !InstalledAs(Rows(), d, user, install)
        decreases |rest|
      {
        var d :| d in rest;
        if devices[d].user == user && devices[d].install == install {
          return Some(d);
        }
        rest := rest - {d};
      }
      id := None;
    }

    /** `newId` is the new row's id. Any error leaves both tables as they were. */
    method Register(user: string, install: string, key: string, newId: string, gate: Attestation) returns (id: Option<string>)
      requires newId !in devices
      modifies this
      ensures id.None? ==> Rows() == old(Rows())
      ensures id.None? ==>
                || (exists d :: InstalledAs(old(Rows()), d, user, install) && RegisterAgain(pools, old(Rows()), d, key, gate).None?)
                || ((forall d :: !InstalledAs(old(Rows()), d, user, install))
                    && RegisterNew(pools, old(Rows()), newId, user, install, key, gate).None?)
      ensures id.Some? ==>
                if id.value in old(devices) then
                  && InstalledAs(old(Rows()), id.value, user, install)
                  && old(devices)[id.value].user == user && old(devices)[id.value].install == install
                  && Some(Rows()) == RegisterAgain(pools, old(Rows()), id.value, key, gate)
                else
                  && id.value == newId && (forall d :: !InstalledAs(old(Rows()), d, user, install))
                  && (forall d | d in old(devices) :: old(devices)[d].user != user || old(devices)[d].install != install)
                  && Some(Rows()) == RegisterNew(pools, old(Rows()), newId, user, install, key, gate)
    {
      var found := FindByInstall(user, install);
      assert found.None? ==> forall d :: !InstalledAs(old(Rows()), d, user, install) by {
        assert Rows() == old(Rows());
      }
      var before, beforeKeys := devices, keys;
      var dev := if found.Some? then found.value else newId;
      if found.None? {
        devices := devices[dev := DeviceRow(user, install, if gate == Attested then Active else PendingAttest, false, None)];
      } else {
        devices := devices[dev := devices[dev].(status := Active, deleted := false, policy := None)];
        RevokeKeysOf(dev);
      }
      var issued := false;
      if gate != Refused {
        issued := AllocateAndIssue(dev, key, None, None);
      }
      if !issued {
        devices, keys := before, beforeKeys;
        return None;
      }
      id := Some(dev);
    }

    method RotateKey(id: string, key: string) returns (ok: bool)
      modifies this`keys
      ensures ok <==> && id in old(devices) && !old(devices)[id].deleted && old(devices)[id].status != Revoked
                      && Rotate(pools, old(Rows()), id, key).Some?
      ensures MayRotate(old(Rows()), id) <==> id in old(devices) && !old(devices)[id].deleted && old(devices)[id].status != Revoked
      ensures Rows() == if ok then Rotate(pools, old(Rows()), id, key).value else old(Rows())
    {
      if id !in devices || devices[id].deleted || devices[id].status == Revoked {
        return false;
      }
      var active := FindActiveKey(id);
      var keep4: Option<nat>, keep6: Option<nat> := None, None;
      if active.Some? {
        keep4, keep6 := Some(active.value.ipv4), active.value.ipv6;
      }
      var beforeKeys := keys;
      RevokeKeysOf(id);
      ok := AllocateAndIssue(id, key, keep4, keep6);
      if !ok {
        keys := beforeKeys;
      }
    }

    method RevokeDevice(id: string) returns (ok: bool)
      modifies this
      ensures ok <==> id in old(devices) && !old(devices)[id].deleted
      ensures ok <==> MayRevoke(old(Rows()), id)
      ensures Rows() == if ok then Revoke(old(Rows()), id) else old(Rows())
    {
      ok := id in devices && !devices[id].deleted;
      if ok {
        RevokeKeysOf(id);
        devices := devices[id := devices[id].(status := Revoked, deleted := true)];
      }
    }
  }
}
