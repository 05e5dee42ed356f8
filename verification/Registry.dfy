/** The device and authorization tables of backend/internal/registry/registry.go, one SQL statement per operation. */
module Registry {
  import opened Prelude

  type DeviceId = seq<Byte>
  type UserId = string

  datatype Device = Device(publicKey: string, owner: UserId)

  /** A grant `(o, a)` lets device `a` request a session with device `o`. */
  datatype Tables = Tables(devices: map<DeviceId, Device>, grants: set<(DeviceId, DeviceId)>)

  const EMPTY := Tables(map[], {})

  predicate Owns(t: Tables, user: UserId, device: DeviceId) {
    device in t.devices && t.devices[device].owner == user
  }

  /** Insert, or update the key where the owner is the same; whether a row was affected. */
  function Upserted(t: Tables, device: DeviceId, publicKey: string, user: UserId): (Tables, bool) {
    if device in t.devices && t.devices[device].owner != user then (t, false)
    else (t.(devices := t.devices[device := Device(publicKey, user)]), true)
  }

  function Granted(t: Tables, owner: DeviceId, allowed: DeviceId): Tables {
    t.(grants := t.grants + {(owner, allowed)})
  }

  class Store {
    var devices: map<DeviceId, Device>
    var grants: set<(DeviceId, DeviceId)>

    function Model(): Tables
      reads this
    {
      Tables(devices, grants)
    }

    constructor ()
      ensures Model() == EMPTY
    {
      devices, grants := map[], {};
    }

    /** Fails exactly when the device is another account's, and then changes nothing. */
    method UpsertDevice(device: DeviceId, publicKey: string, user: UserId) returns (ok: bool)
      modifies this
      ensures (Model(), ok) == Upserted(old(Model()), device, publicKey, user)
      ensures ok <==> (device in old(devices) ==> old(devices)[device].owner == user)
      ensures forall d | d in old(devices) :: d in devices && devices[d].owner == old(devices)[d].owner
      ensures ok ==> device in devices && devices[device] == Device(publicKey, user)
    {
      var rowsAffected := 0;
      if device !in devices {
        devices := devices[device := Device(publicKey, user)];
        rowsAffected := 1;
      } else if devices[device].owner == user {
        devices := devices[device := devices[device].(publicKey := publicKey)];
        rowsAffected := 1;
      }
      ok := rowsAffected != 0;
    }

    method GetDevice(device: DeviceId) returns (r: Option<Device>)
      ensures r == if device in devices then Some(devices[device]) else None
    {
      if device in devices {
        return Some(devices[device]);
      }
      return None;
    }

    method IsDeviceOwner(device: DeviceId, user: UserId) returns (r: bool)
      ensures r <==> Owns(Model(), user, device)
    {
      r := device in devices && devices[device].owner == user;
    }

    method AuthorizeDevice(owner: DeviceId, allowed: DeviceId)
      modifies this`grants
      ensures Model() == Granted(old(Model()), owner, allowed)
    {
      if (owner, allowed) !in grants {
        grants := grants + {(owner, allowed)};
      }
    }

    method IsAuthorized(target: DeviceId, requester: DeviceId) returns (r: bool)
      ensures r <==> (target, requester) in grants
    {
      r := (target, requester) in grants;
    }
  }

  /** The tables only grow, and no device changes hands. */
  ghost predicate Extends(t: Tables, t': Tables) {
    && t.grants <= t'.grants
    && forall d | d in t.devices :: d in t'.devices && t'.devices[d].owner == t.devices[d].owner
  }
}
