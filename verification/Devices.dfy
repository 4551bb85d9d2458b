/** The device registry of the login flow: at most three active devices per user, blocked devices stay
    out.  Logins are handled one after another. */
module Devices {

  datatype Device = Device(blocked: bool, lastSeen: int)

  /** user_devices, unique by (user, fingerprint). */
  type Registry = map<(int, string), Device>

  const DEVICE_LIMIT: nat := 3

  datatype Answer = Refreshed | Added | DeviceBlocked | LimitExceeded

  function Active(devices: Registry, user: int): set<(int, string)> {
    set k | k in devices && k.0 == user && !devices[k].blocked
  }

  ghost predicate WithinLimit(devices: Registry) {
    forall user :: |Active(devices, user)| <= DEVICE_LIMIT
  }

  class Store {
    var devices: Registry
    var added: nat  // audit rows "device_added"

    constructor ()
      ensures devices == map[] && added == 0 && WithinLimit(devices)
    {
      devices, added := map[], 0;
    }

    /** `_register_device`: a known device is refreshed or refused, a new one is admitted below the limit;
        every login keeps the limit for every user. */
    method Register(user: int, fingerprint: string, now: int) returns (a: Answer)
      requires WithinLimit(devices)
      modifies this
      ensures WithinLimit(devices)
      ensures var k := (user, fingerprint); var before := old(devices);
              && (a == DeviceBlocked <==> k in before && before[k].blocked)
              && (a == Refreshed <==> k in before && !before[k].blocked)
              && (a == LimitExceeded <==> k !in before && |Active(before, user)| == DEVICE_LIMIT)
              && devices == (if a.Refreshed? || a.Added? then before[k := Device(false, now)] else before)
              && added == old(added) + if a.Added? then 1 else 0
    {
      var k := (user, fingerprint);
      if k in devices {
        if devices[k].blocked { return DeviceBlocked; }
        RefreshingOne(devices, k, now);
        devices := devices[k := Device(false, now)];
        return Refreshed;
      }
      if |Active(devices, user)| >= DEVICE_LIMIT { return LimitExceeded; }
      AddingOne(devices, k, now);
      devices := devices[k := Device(false, now)];
      added := added + 1;
      a := Added;
    }

    /** `block_device`. */
    method Block(k: (int, string)) returns (found: bool)
      requires WithinLimit(devices)
      modifies this`devices
      ensures WithinLimit(devices)
      ensures found <==> k in old(devices)
      ensures devices == if found then old(devices)[k := old(devices)[k].(blocked := true)] else old(devices)
    {
      found := k in devices;
      if found {
        var after := devices[k := devices[k].(blocked := true)];
        forall user ensures |Active(after, user)| <= DEVICE_LIMIT {
          assert Active(after, user) == Active(devices, user) - {k};
          Shrinks(Active(devices, user), k);
        }
        devices := after;
      }
    }
  }

  lemma Shrinks(s: set<(int, string)>, k: (int, string))
    ensures |s - {k}| <= |s|
  {
    if k in s { assert |s - {k}| == |s| - 1; } else { assert s - {k} == s; }
  }

  lemma RefreshingOne(devices: Registry, k: (int, string), now: int)
    requires WithinLimit(devices) && k in devices && !devices[k].blocked
    ensures WithinLimit(devices[k := Device(false, now)])
  {
    var after := devices[k := Device(false, now)];
    forall user ensures |Active(after, user)| <= DEVICE_LIMIT {
      assert Active(after, user) == Active(devices, user);
    }
  }

  lemma ActiveAfterAdding(devices: Registry, k: (int, string), now: int, user: int)
    requires k !in devices
    ensures Active(devices[k := Device(false, now)], user)
         == if user == k.0 then Active(devices, user) + {k} else Active(devices, user)
  {
  }

  /** One more active device for its user, none for anyone else. */
  lemma AddingOne(devices: Registry, k: (int, string), now: int)
    requires WithinLimit(devices) && k !in devices && |Active(devices, k.0)| < DEVICE_LIMIT
    ensures WithinLimit(devices[k := Device(false, now)])
  {
    hide Active;
    var after := devices[k := Device(false, now)];
    forall user ensures |Active(after, user)| <= DEVICE_LIMIT {
      ActiveAfterAdding(devices, k, now, user);
    }
  }
}
