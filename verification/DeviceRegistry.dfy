/** Device bindings and pairing codes of relay/src/devices/registry.ts.

    Identifiers, hashes and account names are taken as already validated.
 */
module DeviceRegistry {
  import opened Wrappers

  datatype DeviceRecord = DeviceRecord(account: string, credentialHash: string, revoked: bool)

  datatype PendingPairing = PendingPairing(device: string, credentialHash: string, expiresAt: nat)

  predicate BoundIn(devices: map<string, DeviceRecord>, device: string, account: string) {
    device in devices && devices[device].account == account && !devices[device].revoked
  }

  class DeviceRegistry {
    const pairingTtlMs: nat
    var devices: map<string, DeviceRecord>
    var pendingByCode: map<string, PendingPairing>

    constructor (pairingTtlMs: nat)
      ensures devices == map[] && pendingByCode == map[] && this.pairingTtlMs == pairingTtlMs
    {
      this.pairingTtlMs := pairingTtlMs;
      devices, pendingByCode := map[], map[];
    }

    ghost predicate Bound(device: string, account: string)
      reads this
    {
      BoundIn(devices, device, account)
    }

    /** The device is bound to some account. */
    predicate Paired(device: string)
      reads this
    {
      device in devices && !devices[device].revoked
    }

    /** `code` is the random user code; a code drawn twice replaces the earlier pairing. */
    method StartPairing(device: string, credentialHash: string, code: string, now: nat) returns (ok: bool)
      modifies this`pendingByCode
      ensures ok <==> !Paired(device)
      ensures pendingByCode == if ok
        then old(pendingByCode)[code := PendingPairing(device, credentialHash, now + pairingTtlMs)]
        else old(pendingByCode)
    {
      if device in devices && !devices[device].revoked {
        return false;
      }
      pendingByCode := pendingByCode[code := PendingPairing(device, credentialHash, now + pairingTtlMs)];
      return true;
    }

    /** A code works once, before it expires, and is gone after any attempt. */
    method ApprovePairing(account: string, code: string, now: nat) returns (ok: bool)
      modifies this
      ensures ok <==> code in old(pendingByCode) && now < old(pendingByCode)[code].expiresAt
      ensures pendingByCode == old(pendingByCode) - {code}
      ensures devices == if ok
        then var p := old(pendingByCode)[code];
             old(devices)[p.device := DeviceRecord(account, p.credentialHash, false)]
        else old(devices)
    {
      if code !in pendingByCode || pendingByCode[code].expiresAt <= now {
        pendingByCode := pendingByCode - {code};
        return false;
      }
      var pending := pendingByCode[code];
      pendingByCode := pendingByCode - {code};
      devices := devices[pending.device := DeviceRecord(account, pending.credentialHash, false)];
      return true;
    }

    /** Only the owning account revokes; revoking twice changes nothing. */
    method RevokeDevice(account: string, device: string) returns (ok: bool)
      modifies this`devices
      ensures ok <==> device in old(devices) && old(devices)[device].account == account
      ensures devices == if ok then old(devices)[device := old(devices)[device].(revoked := true)] else old(devices)
    {
      if device !in devices || devices[device].account != account {
        return false;
      }
      if !devices[device].revoked {
        devices := devices[device := devices[device].(revoked := true)];
      }
      return true;
    }

    /** Whoever finds an account on the binding, and no revocation, knows that the device is
        bound to it, and to no other account. */
    method GetDevice(device: string) returns (binding: Option<DeviceRecord>)
      ensures binding.Some? <==> device in devices
      ensures binding.Some? ==> binding.value == devices[device]
      ensures forall account ::
        Bound(device, account) <==> binding.Some? && binding.value.account == account && !binding.value.revoked
    {
      binding := if device in devices then Some(devices[device]) else None;
    }

    method ListDevices(account: string) returns (owned: set<string>)
      ensures forall d :: d in owned <==> d in devices && devices[d].account == account
    {
      owned := set d | d in devices && devices[d].account == account;
    }
  }
}
