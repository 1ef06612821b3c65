/** The store of linked devices: one record per device id. */
module DeviceStore {
  import opened Foundations

  datatype Capability = Terminal | Files | Desktop | Tcp | Admin
  datatype TrustState = Trusted | Pending | Revoked

  const ALL_CAPABILITIES: seq<Capability> := [Terminal, Files, Desktop, Tcp]
  const LABEL_LIMIT := 64

  datatype DeviceRecord = DeviceRecord(
    id: DeviceId,
    labelText: string,
    fingerprint: string,
    capabilities: seq<Capability>,
    trust: TrustState,
    linkedAt: int,
    lastSeen: Option<int>,
    endpointHint: Option<string>,
    meshId: Option<Bytes>,
    aliases: seq<string>,
    groups: seq<string>
  )

  type Devices = map<DeviceId, DeviceRecord>

  /** Labels are cut to 64 characters. */
  function Label(s: string): string
  {
    if |s| > LABEL_LIMIT then s[..LABEL_LIMIT] else s
  }

  predicate IsTrusted(d: Devices, id: DeviceId)
  {
    id in d && d[id].trust == Trusted
  }

  function TrustedIds(d: Devices): set<DeviceId>
  {
    set id | id in d && d[id].trust == Trusted
  }

  /** Records are filed under their own id. */
  ghost predicate Filed(d: Devices)
  {
    forall id :: id in d ==> d[id].id == id
  }

  class Store {
    var devices: Devices

    ghost predicate Valid()
      reads this
    {
      Filed(devices)
    }

    constructor ()
      ensures Valid() && devices == map[]
    {
      devices := map[];
    }

    method Upsert(r: DeviceRecord)
      requires Valid()
      modifies this
      ensures Valid() && devices == old(devices)[r.id := r]
    {
      devices := devices[r.id := r];
    }

    /** A command that read the store earlier writes back all of what it read. */
    method Overwrite(held: Devices)
      requires Filed(held)
      modifies this
      ensures Valid() && devices == held
    {
      devices := held;
    }

    method Revoke(id: DeviceId) returns (found: bool)
      requires Valid()
      modifies this
      ensures Valid() && found == (id in old(devices))
      ensures TrustedIds(devices) == TrustedIds(old(devices)) - {id}
      ensures devices.Keys == old(devices).Keys
      ensures forall x :: x in devices ==>
        devices[x] == (if x == id then old(devices)[x].(trust := Revoked) else old(devices)[x])
    {
      found := id in devices;
      if found {
        devices := devices[id := devices[id].(trust := Revoked)];
      }
    }

    method Remove(id: DeviceId) returns (found: bool)
      requires Valid()
      modifies this
      ensures Valid() && found == (id in old(devices))
      ensures devices == old(devices) - {id}
      ensures TrustedIds(devices) == TrustedIds(old(devices)) - {id}
    {
      found := id in devices;
      devices := devices - {id};
    }

    /** A peer may use a capability only while it is trusted and its record grants it. */
    method Allows(id: DeviceId, cap: Capability) returns (ok: bool)
      ensures ok <==> id in TrustedIds(devices) && cap in devices[id].capabilities
    {
      ok := id in devices && devices[id].trust == Trusted && cap in devices[id].capabilities;
    }
  }
}
