/** The daemon's device list (apps/linsightd/src/hardware.rs): built once from the loaded plugins, then
    changed only through nicknames, with display labels kept in a cache. */
module HardwareRegistries {
  import opened Prelude
  import opened DeviceLabels
  import opened PluginHosts

  type Devices = map<string, Device>
  type Index = map<(string, string), string>   // (plugin id, plugin device id) -> key

  datatype Inventory = Inventory(devices: Devices, byPlugin: Index)

  // ---- building ---------------------------------------------------------------------------------

  /** The first registration of a key wins; the host fills in the plugin id and clears the sensor list. */
  function WithDevice(inv: Inventory, pluginId: string, dev: Device): Inventory
  {
    if dev.key in inv.devices then inv
    else Inventory(inv.devices[dev.key := dev.(pluginId := pluginId, sensorIds := [])],
                   inv.byPlugin[(pluginId, dev.pluginDeviceId) := dev.key])
  }

  function WithDevices(inv: Inventory, pluginId: string, devs: seq<Device>): Inventory
  {
    if devs == [] then inv else WithDevice(WithDevices(inv, pluginId, devs[..|devs| - 1]), pluginId, devs[|devs| - 1])
  }

  /** A sensor joins the device its key names, whichever plugin declared that device. */
  function WithSensor(devices: Devices, s: Sensor): Devices
  {
    if s.deviceKey.None? || s.deviceKey.value !in devices then devices
    else
      var dev := devices[s.deviceKey.value];
      devices[s.deviceKey.value := dev.(sensorIds := dev.sensorIds + [s.id])]
  }

  function WithSensors(devices: Devices, sensors: seq<Sensor>): Devices
  {
    if sensors == [] then devices
    else WithSensor(WithSensors(devices, sensors[..|sensors| - 1]), sensors[|sensors| - 1])
  }

  function WithPlugin(inv: Inventory, p: Plugin): Inventory
  {
    var declared := WithDevices(inv, p.pluginId, p.devices);
    declared.(devices := WithSensors(declared.devices, p.sensors))
  }

  function Built(plugins: seq<Plugin>): Inventory
  {
    if plugins == [] then Inventory(map[], map[])
    else WithPlugin(Built(plugins[..|plugins| - 1]), plugins[|plugins| - 1])
  }

  /** Nicknames under keys that do not parse are dropped. */
  function KnownNicknames(raw: map<string, string>): map<string, string>
  {
    map k | k in raw && TryNew(k).GoodKey? :: raw[k]
  }

  // ---- the registry object ----------------------------------------------------------------------

  /** `all` holds exactly the devices of the map. */
  ghost predicate Lists(all: seq<Device>, devices: Devices)
  {
    && (forall d | d in all :: d.key in devices && devices[d.key] == d)
    && (forall k | k in devices :: devices[k] in all)
  }

  ghost predicate KeyedByKey(devices: Devices) { forall k | k in devices :: devices[k].key == k }

  /** The cached label of `k` is the one computed afresh, from any listing of the devices. */
  ghost predicate Cached(devices: Devices, nicknames: map<string, string>, labels: map<string, string>, k: string)
  {
    k in devices && k in labels && forall all | Lists(all, devices) :: labels[k] == ComputeDeviceLabel(devices[k], all, nicknames)
  }

  datatype SetResult = SetOk | UnknownDevice | InvalidNickname

  class HardwareRegistry {
    var devices: Devices
    var byPlugin: Index
    var nicknames: map<string, string>
    var labels: map<string, string>

    ghost predicate Valid()
      reads this
    {
      && Indexed(Inventory(devices, byPlugin))
      && labels.Keys == devices.Keys
      && forall k | k in devices :: Cached(devices, nicknames, labels, k)
    }

    constructor (plugins: seq<Plugin>, raw: map<string, string>)
      ensures Valid()
      ensures Inventory(devices, byPlugin) == Built(plugins)
      ensures forall k :: k in nicknames <==> k in raw && TryNew(k).GoodKey?
      ensures forall k | k in nicknames :: nicknames[k] == raw[k]
    {
      var inv := Inventory(map[], map[]);
      for i := 0 to |plugins|
        invariant inv == Built(plugins[..i])
      {
        assert plugins[..i + 1][..i] == plugins[..i];
        inv := AddPlugin(inv, plugins[i]);
      }
      assert plugins[..|plugins|] == plugins;
      devices, byPlugin := inv.devices, inv.byPlugin;
      nicknames := KnownNicknames(raw);
      labels := map[];
      new;
      BuiltIsIndexed(plugins);
      RebuildLabels();
    }

    /** One turn of the build loop: first the devices, then the sensors of a plugin. */
    static method AddPlugin(inv: Inventory, p: Plugin) returns (r: Inventory)
      ensures r == WithPlugin(inv, p)
    {
      r := inv;
      for i := 0 to |p.devices|
        invariant r == WithDevices(inv, p.pluginId, p.devices[..i])
      {
        assert p.devices[..i + 1][..i] == p.devices[..i];
        var dev := p.devices[i];
        if dev.key !in r.devices {
          r := Inventory(r.devices[dev.key := dev.(pluginId := p.pluginId, sensorIds := [])],
                         r.byPlugin[(p.pluginId, dev.pluginDeviceId) := dev.key]);
        }
      }
      assert p.devices[..|p.devices|] == p.devices;
      ghost var declared := r;
      for i := 0 to |p.sensors|
        invariant r == declared.(devices := WithSensors(declared.devices, p.sensors[..i]))
      {
        assert p.sensors[..i + 1][..i] == p.sensors[..i];
        var s := p.sensors[i];
        if s.deviceKey.Some? && s.deviceKey.value in r.devices {
          var dev := r.devices[s.deviceKey.value];
          r := r.(devices := r.devices[s.deviceKey.value := dev.(sensorIds := dev.sensorIds + [s.id])]);
        }
      }
      assert p.sensors[..|p.sensors|] == p.sensors;
    }

    /** All devices, in the arbitrary order a hash map yields them. */
    method Values() returns (all: seq<Device>)
      requires KeyedByKey(devices)
      ensures Lists(all, devices)
    {
      all := [];
      var todo := devices.Keys;
      while todo != {}
        invariant todo <= devices.Keys
        invariant forall d | d in all :: d.key in devices && devices[d.key] == d
        invariant forall k | k in devices :: k in todo || devices[k] in all
        decreases todo
      {
        var k :| k in todo;
        all := all + [devices[k]];
        todo := todo - {k};
      }
    }

    method RebuildLabels()
      requires Indexed(Inventory(devices, byPlugin))
      modifies this`labels
      ensures Valid()
    {
      labels := map[];
      var all := Values();
      var todo := devices.Keys;
      while todo != {}
        invariant todo <= devices.Keys && labels.Keys == devices.Keys - todo
        invariant forall k | k in devices && k !in todo :: Cached(devices, nicknames, labels, k)
        decreases todo
      {
        var k :| k in todo;
        forall other | Lists(other, devices)
          ensures ComputeDeviceLabel(devices[k], all, nicknames) == ComputeDeviceLabel(devices[k], other, nicknames)
        {
          ListingsAgree(all, other, devices);
          LabelIgnoresOrder(devices[k], all, other, nicknames);
        }
        labels := labels[k := ComputeDeviceLabel(devices[k], all, nicknames)];
        todo := todo - {k};
      }
    }

    method DeviceLabelFor(key: string) returns (r: string)
      requires Valid()
      ensures key !in devices ==> r == key
      ensures key in devices ==> forall all | Lists(all, devices) :: r == ComputeDeviceLabel(devices[key], all, nicknames)
      ensures key in devices && key in nicknames ==> r == nicknames[key]
    {
      if key in labels {
        assert Cached(devices, nicknames, labels, key);
        r := labels[key];
        if key in nicknames { ghost var all := ListingExists(devices, devices.Keys); }
      } else {
        r := key;
      }
    }

    method SetNickname(key: string, value: Option<string>) returns (r: SetResult)
      requires Valid()
      modifies this
      ensures Valid() && devices == old(devices) && byPlugin == old(byPlugin)
      ensures r.UnknownDevice? <==> key !in devices
      ensures r.InvalidNickname? <==> key in devices && value.Some? && !ValidateNickname(value.value).Accepted?
      ensures !r.SetOk? ==> nicknames == old(nicknames) && labels == old(labels)
      ensures r.SetOk? ==>
                var wanted := if value.Some? then ValidateNickname(value.value).value else None;
                nicknames == if wanted.Some? then old(nicknames)[key := wanted.value] else old(nicknames) - {key}
    {
      if key !in devices { return UnknownDevice; }
      match value {
        case Some(raw) =>
          var checked := ValidateNickname(raw);
          if !checked.Accepted? { return InvalidNickname; }
          match checked.value {
            case Some(n) => nicknames := nicknames[key := n];
            case None => nicknames := nicknames - {key};
          }
        case None =>
          nicknames := nicknames - {key};
      }
      RebuildLabels();
      r := SetOk;
    }

    /** What goes to the GUI. Sorting for display is left out; the labels do not depend on it. */
    method Snapshot() returns (all: seq<Device>, nicks: map<string, string>)
      requires Valid()
      ensures Lists(all, devices) && nicks == nicknames
      ensures forall d | d in all :: d.key in labels && labels[d.key] == ComputeDeviceLabel(d, all, nicks)
    {
      all := Values();
      nicks := nicknames;
      forall d | d in all ensures d.key in labels && labels[d.key] == ComputeDeviceLabel(d, all, nicks) {
        assert Cached(devices, nicknames, labels, d.key);
      }
    }

    /** Finds a device by the pair its plugin knows it by, if the plugin registered one under it. */
    method KeyFor(pluginId: string, pluginDeviceId: string) returns (key: Option<string>)
      requires Valid()
      ensures key.None? <==>
              forall k | k in devices :: !(devices[k].pluginId == pluginId && devices[k].pluginDeviceId == pluginDeviceId)
      ensures key.Some? ==>
                && key.value in devices
                && devices[key.value].pluginId == pluginId && devices[key.value].pluginDeviceId == pluginDeviceId
    {
      key := if (pluginId, pluginDeviceId) in byPlugin then Some(byPlugin[(pluginId, pluginDeviceId)]) else None;
    }
  }

  /** The devices under some keys can be listed, and so can all. */
  lemma {:induction false} ListingExists(devices: Devices, keys: set<string>) returns (all: seq<Device>)
    requires KeyedByKey(devices) && keys <= devices.Keys
    ensures forall d | d in all :: d.key in devices && devices[d.key] == d
    ensures forall k | k in keys :: devices[k] in all
    ensures keys == devices.Keys ==> Lists(all, devices)
    decreases keys
  {
    if keys == {} {
      all := [];
    } else {
      var k :| k in keys;
      var others := ListingExists(devices, keys - {k});
      all := others + [devices[k]];
    }
  }

  lemma ListingsAgree(all: seq<Device>, other: seq<Device>, devices: Devices)
    requires Lists(all, devices) && Lists(other, devices)
    ensures SameDevices(all, other)
  {
  }

  // ---- what building guarantees -----------------------------------------------------------------

  /** Every lookup leads to a device that this plugin registered under this id, and every device is found by
      some lookup's pair. */
  ghost predicate Indexed(inv: Inventory)
  {
    && KeyedByKey(inv.devices)
    && (forall p | p in inv.byPlugin ::
          && inv.byPlugin[p] in inv.devices
          && inv.devices[inv.byPlugin[p]].pluginId == p.0 && inv.devices[inv.byPlugin[p]].pluginDeviceId == p.1)
    && (forall k | k in inv.devices :: (inv.devices[k].pluginId, inv.devices[k].pluginDeviceId) in inv.byPlugin)
  }

  /** Same devices but for their sensors. */
  ghost predicate SameButSensors(a: Devices, b: Devices)
  {
    a.Keys == b.Keys && forall k | k in a :: b[k] == a[k].(sensorIds := b[k].sensorIds)
  }

  lemma {:induction false} WithDevicesIndexed(inv: Inventory, pluginId: string, devs: seq<Device>)
    requires Indexed(inv)
    ensures Indexed(WithDevices(inv, pluginId, devs))
  {
    if devs == [] {
    } else {
      WithDevicesIndexed(inv, pluginId, devs[..|devs| - 1]);
    }
  }

  lemma {:induction false} WithSensorsSame(devices: Devices, sensors: seq<Sensor>)
    ensures SameButSensors(devices, WithSensors(devices, sensors))
  {
    if sensors == [] {
    } else {
      WithSensorsSame(devices, sensors[..|sensors| - 1]);
    }
  }

  lemma {:induction false} BuiltIsIndexed(plugins: seq<Plugin>)
    ensures Indexed(Built(plugins))
  {
    if plugins == [] {
    } else {
      var p, before := plugins[|plugins| - 1], Built(plugins[..|plugins| - 1]);
      BuiltIsIndexed(plugins[..|plugins| - 1]);
      WithDevicesIndexed(before, p.pluginId, p.devices);
      WithSensorsSame(WithDevices(before, p.pluginId, p.devices).devices, p.sensors);
    }
  }

  /** No sensor id sits at two places of the device lists. */
  ghost predicate SensorsOnce(devices: Devices)
  {
    forall k, l, i, j | k in devices && l in devices && 0 <= i < |devices[k].sensorIds| && 0 <= j < |devices[l].sensorIds|
                        && devices[k].sensorIds[i] == devices[l].sensorIds[j] :: k == l && i == j
  }

  ghost predicate SensorsAmong(devices: Devices, ids: set<string>)
  {
    forall k, i | k in devices && 0 <= i < |devices[k].sensorIds| :: devices[k].sensorIds[i] in ids
  }

  ghost function IdsOf(sensors: seq<Sensor>): set<string> { set i | 0 <= i < |sensors| :: sensors[i].id }

  ghost function AllIds(plugins: seq<Plugin>): set<string>
  {
    if plugins == [] then {} else AllIds(plugins[..|plugins| - 1]) + IdsOf(plugins[|plugins| - 1].sensors)
  }

  ghost predicate DistinctIds(sensors: seq<Sensor>)
  {
    forall k, l | 0 <= k < l < |sensors| :: sensors[k].id != sensors[l].id
  }

  lemma WithSensorOnce(devices: Devices, s: Sensor, ids: set<string>)
    requires SensorsOnce(devices) && SensorsAmong(devices, ids) && s.id !in ids
    ensures SensorsOnce(WithSensor(devices, s)) && SensorsAmong(WithSensor(devices, s), ids + {s.id})
  {
  }

  lemma {:induction false} WithSensorsOnce(devices: Devices, sensors: seq<Sensor>, ids: set<string>)
    requires SensorsOnce(devices) && SensorsAmong(devices, ids) && DistinctIds(sensors) && IdsOf(sensors) !! ids
    ensures var r := WithSensors(devices, sensors); SensorsOnce(r) && SensorsAmong(r, ids + IdsOf(sensors))
  {
    if sensors == [] {
    } else {
      var front, last := sensors[..|sensors| - 1], sensors[|sensors| - 1];
      assert IdsOf(sensors) == IdsOf(front) + {last.id};
      assert last.id !in IdsOf(front);
      WithSensorsOnce(devices, front, ids);
      WithSensorOnce(WithSensors(devices, front), last, ids + IdsOf(front));
      assert ids + IdsOf(front) + {last.id} == ids + IdsOf(sensors);
    }
  }

  lemma {:induction false} WithDevicesOnce(inv: Inventory, pluginId: string, devs: seq<Device>, ids: set<string>)
    requires SensorsOnce(inv.devices) && SensorsAmong(inv.devices, ids)
    ensures var r := WithDevices(inv, pluginId, devs).devices; SensorsOnce(r) && SensorsAmong(r, ids)
  {
    if devs == [] {
    } else {
      WithDevicesOnce(inv, pluginId, devs[..|devs| - 1], ids);
    }
  }

  /** The ids of one plugin's sensors occur in no earlier plugin. */
  ghost predicate SensorsDisjoint(plugins: seq<Plugin>)
  {
    && (forall i | 0 <= i < |plugins| :: DistinctIds(plugins[i].sensors))
    && (forall i, j | 0 <= i < j < |plugins| :: IdsOf(plugins[i].sensors) !! IdsOf(plugins[j].sensors))
  }

  lemma {:induction false} AllIdsFrom(plugins: seq<Plugin>, id: string)
    requires id in AllIds(plugins)
    ensures exists i :: 0 <= i < |plugins| && id in IdsOf(plugins[i].sensors)
  {
    var front := plugins[..|plugins| - 1];
    if id in AllIds(front) {
      AllIdsFrom(front, id);
      var i :| 0 <= i < |front| && id in IdsOf(front[i].sensors);
      assert id in IdsOf(plugins[i].sensors);
    }
  }

  lemma {:induction false} BuiltSensorsOnce(plugins: seq<Plugin>)
    requires SensorsDisjoint(plugins)
    ensures SensorsOnce(Built(plugins).devices) && SensorsAmong(Built(plugins).devices, AllIds(plugins))
  {
    if plugins == [] {
    } else {
      var front, p := plugins[..|plugins| - 1], plugins[|plugins| - 1];
      BuiltSensorsOnce(front);
      WithDevicesOnce(Built(front), p.pluginId, p.devices, AllIds(front));
      forall id | id in AllIds(front) ensures id !in IdsOf(p.sensors) {
        AllIdsFrom(front, id);
        var i :| 0 <= i < |front| && id in IdsOf(front[i].sensors);
        assert IdsOf(plugins[i].sensors) !! IdsOf(plugins[|plugins| - 1].sensors);
      }
      WithSensorsOnce(WithDevices(Built(front), p.pluginId, p.devices).devices, p.sensors, AllIds(front));
    }
  }

  // ---- nothing declared is lost -----------------------------------------------------------------

  /** The entry for `k` is still there, the same but for sensors added at the end. */
  ghost predicate Grown(a: Devices, b: Devices, k: string)
  {
    k in a && k in b && a[k].sensorIds <= b[k].sensorIds && b[k] == a[k].(sensorIds := b[k].sensorIds)
  }

  lemma {:induction false} WithDevicesKeeps(inv: Inventory, pluginId: string, devs: seq<Device>, k: string)
    requires k in inv.devices
    ensures var r := WithDevices(inv, pluginId, devs).devices; k in r && r[k] == inv.devices[k]
  {
    if devs == [] {
    } else {
      WithDevicesKeeps(inv, pluginId, devs[..|devs| - 1], k);
    }
  }

  lemma {:induction false} WithSensorsGrows(devices: Devices, sensors: seq<Sensor>, k: string)
    requires k in devices
    ensures Grown(devices, WithSensors(devices, sensors), k)
  {
    if sensors == [] {
    } else {
      WithSensorsGrows(devices, sensors[..|sensors| - 1], k);
    }
  }

  lemma WithPluginGrows(inv: Inventory, p: Plugin, k: string)
    requires k in inv.devices
    ensures Grown(inv.devices, WithPlugin(inv, p).devices, k)
  {
    WithDevicesKeeps(inv, p.pluginId, p.devices, k);
    WithSensorsGrows(WithDevices(inv, p.pluginId, p.devices).devices, p.sensors, k);
  }

  lemma {:induction false} BuiltGrows(plugins: seq<Plugin>, n: nat, k: string)
    requires n <= |plugins| && k in Built(plugins[..n]).devices
    ensures Grown(Built(plugins[..n]).devices, Built(plugins).devices, k)
  {
    if n == |plugins| {
      assert plugins[..n] == plugins;
    } else {
      var front := plugins[..|plugins| - 1];
      assert front[..n] == plugins[..n];
      BuiltGrows(front, n, k);
      WithPluginGrows(Built(front), plugins[|plugins| - 1], k);
    }
  }

  /** A key occurs among the devices exactly when it was there or is declared; the first declaration decides. */
  lemma {:induction false} WithDevicesDeclares(inv: Inventory, pluginId: string, devs: seq<Device>, j: nat)
    requires j < |devs|
    ensures var r := WithDevices(inv, pluginId, devs).devices;
            && devs[j].key in r
            && (devs[j].key !in inv.devices && (forall b | 0 <= b < j :: devs[b].key != devs[j].key) ==>
                  r[devs[j].key] == devs[j].(pluginId := pluginId, sensorIds := []))
  {
    var front := devs[..|devs| - 1];
    if j < |front| {
      WithDevicesDeclares(inv, pluginId, front, j);
      assert front[j] == devs[j] && forall b | 0 <= b < j :: front[b] == devs[b];
    } else if devs[j].key in WithDevices(inv, pluginId, front).devices {
      WithDevicesOnly(inv, pluginId, front, devs[j].key);
    }
  }

  lemma {:induction false} WithDevicesOnly(inv: Inventory, pluginId: string, devs: seq<Device>, k: string)
    requires k in WithDevices(inv, pluginId, devs).devices
    ensures k in inv.devices || exists b :: 0 <= b < |devs| && devs[b].key == k
  {
    if devs == [] {
    } else {
      var front := devs[..|devs| - 1];
      if k in WithDevices(inv, pluginId, front).devices {
        WithDevicesOnly(inv, pluginId, front, k);
        if b :| 0 <= b < |front| && front[b].key == k { assert devs[b].key == k; }
      } else {
        assert devs[|devs| - 1].key == k;
      }
    }
  }

  // ---- which sensors a device gets --------------------------------------------------------------

  ghost predicate Declares(p: Plugin, k: string) { exists b :: 0 <= b < |p.devices| && p.devices[b].key == k }

  /** Some plugin up to the i-th declares the key. */
  ghost predicate DeclaredUpTo(plugins: seq<Plugin>, i: int, k: string)
  {
    exists a :: 0 <= a <= i && a < |plugins| && Declares(plugins[a], k)
  }

  /** The sensor id is in the list of the device. */
  ghost predicate Holds(devices: Devices, k: string, id: string) { k in devices && id in devices[k].sensorIds }

  /** One of the sensors has this id and refers to this key. */
  ghost predicate Offers(sensors: seq<Sensor>, k: string, id: string)
  {
    exists j :: 0 <= j < |sensors| && sensors[j].id == id && sensors[j].deviceKey == Some(k)
  }

  lemma {:induction false} WithDevicesHolds(inv: Inventory, pluginId: string, devs: seq<Device>, k: string, id: string)
    ensures var r := WithDevices(inv, pluginId, devs).devices;
            && (Holds(r, k, id) <==> Holds(inv.devices, k, id))
            && (k in r <==> k in inv.devices || exists b :: 0 <= b < |devs| && devs[b].key == k)
  {
    if devs == [] {
    } else {
      WithDevicesHolds(inv, pluginId, devs[..|devs| - 1], k, id);
      if k in WithDevices(inv, pluginId, devs).devices {
        WithDevicesOnly(inv, pluginId, devs, k);
      }
      if b :| 0 <= b < |devs| && devs[b].key == k { WithDevicesDeclares(inv, pluginId, devs, b); }
    }
  }

  lemma OfferedLast(sensors: seq<Sensor>, k: string, id: string)
    requires sensors != []
    ensures var last := sensors[|sensors| - 1];
            Offers(sensors, k, id) <==> Offers(sensors[..|sensors| - 1], k, id) || (last.id == id && last.deviceKey == Some(k))
  {
    var front := sensors[..|sensors| - 1];
    if j :| 0 <= j < |sensors| && sensors[j].id == id && sensors[j].deviceKey == Some(k) && j < |front| {
      assert front[j] == sensors[j];
    }
    if j :| 0 <= j < |front| && front[j].id == id && front[j].deviceKey == Some(k) { assert sensors[j] == front[j]; }
  }

  lemma {:induction false} WithSensorsHolds(devices: Devices, sensors: seq<Sensor>, k: string, id: string)
    ensures Holds(WithSensors(devices, sensors), k, id) <==>
            Holds(devices, k, id) || (k in devices && Offers(sensors, k, id))
  {
    if sensors == [] {
    } else {
      var front := sensors[..|sensors| - 1];
      WithSensorsHolds(devices, front, k, id);
      WithSensorsSame(devices, front);
      OfferedLast(sensors, k, id);
    }
  }

  lemma DeclaredOneMore(plugins: seq<Plugin>, i: int, k: string)
    requires plugins != []
    ensures i < |plugins| - 1 ==> (DeclaredUpTo(plugins, i, k) <==> DeclaredUpTo(plugins[..|plugins| - 1], i, k))
    ensures var n := |plugins| - 1;
            DeclaredUpTo(plugins, n, k) <==> DeclaredUpTo(plugins[..n], n - 1, k) || Declares(plugins[n], k)
  {
    var n := |plugins| - 1;
    var front := plugins[..n];
    forall a | 0 <= a < n ensures front[a] == plugins[a] {}
    if a :| 0 <= a <= n && a < |plugins| && Declares(plugins[a], k) && a < n { assert Declares(front[a], k); }
    if a :| 0 <= a <= n - 1 && a < |front| && Declares(front[a], k) { assert Declares(plugins[a], k); }
    if a :| 0 <= a <= i && a < |plugins| && Declares(plugins[a], k) && a < n { assert Declares(front[a], k); }
    if a :| 0 <= a <= i && a < |front| && Declares(front[a], k) { assert Declares(plugins[a], k); }
  }

  /** A key is known exactly when some plugin declares it. */
  lemma {:induction false} BuiltKeys(plugins: seq<Plugin>, k: string)
    ensures k in Built(plugins).devices <==> DeclaredUpTo(plugins, |plugins| - 1, k)
  {
    if plugins == [] {
    } else {
      var n := |plugins| - 1;
      var p, before := plugins[n], Built(plugins[..n]);
      BuiltKeys(plugins[..n], k);
      DeclaredOneMore(plugins, n, k);
      WithDevicesHolds(before, p.pluginId, p.devices, k, "");
      WithSensorsSame(WithDevices(before, p.pluginId, p.devices).devices, p.sensors);
    }
  }

  /** Plugin `i` offers the sensor for the key, which by then is declared. */
  ghost predicate Attaches(plugins: seq<Plugin>, i: int, k: string, id: string)
  {
    0 <= i < |plugins| && Offers(plugins[i].sensors, k, id) && DeclaredUpTo(plugins, i, k)
  }

  /** A device's list holds exactly the sensors that refer to its key and come from a plugin by which, or
      before which, the key was declared; by which plugin it was declared does not matter. */
  lemma {:induction false} AttachedExactly(plugins: seq<Plugin>, k: string, id: string)
    ensures Holds(Built(plugins).devices, k, id) <==> exists i :: Attaches(plugins, i, k, id)
  {
    if plugins == [] {
    } else {
      var n := |plugins| - 1;
      var front, p := plugins[..n], plugins[n];
      var before := Built(front);
      AttachedExactly(front, k, id);
      WithDevicesHolds(before, p.pluginId, p.devices, k, id);
      WithSensorsHolds(WithDevices(before, p.pluginId, p.devices).devices, p.sensors, k, id);
      BuiltKeys(front, k);
      DeclaredOneMore(plugins, n, k);
      forall i | 0 <= i < n ensures Attaches(plugins, i, k, id) <==> Attaches(front, i, k, id) {
        DeclaredOneMore(plugins, i, k);
      }
      assert Attaches(plugins, n, k, id) <==> Offers(p.sensors, k, id) && DeclaredUpTo(plugins, n, k);
      AttachesCases(plugins, front, k, id);
    }
  }

  lemma AttachesCases(plugins: seq<Plugin>, front: seq<Plugin>, k: string, id: string)
    requires |front| + 1 == |plugins|
    requires forall i | 0 <= i < |front| :: Attaches(plugins, i, k, id) <==> Attaches(front, i, k, id)
    ensures (exists i :: Attaches(plugins, i, k, id)) <==>
            (exists i :: Attaches(front, i, k, id)) || Attaches(plugins, |front|, k, id)
  {
    if i :| Attaches(plugins, i, k, id) && i < |front| { assert Attaches(front, i, k, id); }
    if i :| Attaches(front, i, k, id) { assert Attaches(plugins, i, k, id); }
  }

  /** For the plugins any sequence of manifests leaves: a sensor of plugin `i` is in the list of key `k` if and
      only if it refers to `k` and some plugin up to `i`, its own or another, declares `k`. */
  lemma {:induction false} SensorsAreAttached(manifests: seq<Manifest>, i: nat, j: nat, k: string)
    requires i < |AfterAll(manifests).plugins| && j < |AfterAll(manifests).plugins[i].sensors|
    ensures var plugins := AfterAll(manifests).plugins;
            var s := plugins[i].sensors[j];
            Holds(Built(plugins).devices, k, s.id) <==> s.deviceKey == Some(k) && DeclaredUpTo(plugins, i, k)
  {
    var h := AfterAll(manifests);
    var plugins, s := h.plugins, h.plugins[i].sensors[j];
    RegistrationIsSound(manifests);
    AttachedExactly(plugins, k, s.id);
    if s.deviceKey == Some(k) && DeclaredUpTo(plugins, i, k) { assert Attaches(plugins, i, k, s.id); }
    if a :| Attaches(plugins, a, k, s.id) {
      var l :| 0 <= l < |plugins[a].sensors| && plugins[a].sensors[l].id == s.id && plugins[a].sensors[l].deviceKey == Some(k);
      SensorsListedOnce(h, i, j, a, l);
    }
  }

  /** Of several declarations of one key the first is kept, with its plugin filled in. */
  lemma {:induction false} FirstDeclarationWins(plugins: seq<Plugin>, i: nat, j: nat)
    requires i < |plugins| && j < |plugins[i].devices|
    requires forall a | 0 <= a < i :: !Declares(plugins[a], plugins[i].devices[j].key)
    requires forall b | 0 <= b < j :: plugins[i].devices[b].key != plugins[i].devices[j].key
    ensures var dev := plugins[i].devices[j];
            && dev.key in Built(plugins).devices
            && Built(plugins).devices[dev.key] ==
               dev.(pluginId := plugins[i].pluginId, sensorIds := Built(plugins).devices[dev.key].sensorIds)
  {
    var p, k := plugins[i], plugins[i].devices[j].key;
    var before := Built(plugins[..i]);
    assert plugins[..i + 1][..i] == plugins[..i];
    assert forall a | 0 <= a < i :: plugins[..i][a] == plugins[a];
    BuiltKeys(plugins[..i], k);
    WithDevicesDeclares(before, p.pluginId, p.devices, j);
    WithSensorsGrows(WithDevices(before, p.pluginId, p.devices).devices, p.sensors, k);
    assert Built(plugins[..i + 1]) == WithPlugin(before, p);
    BuiltGrows(plugins, i + 1, k);
  }

  lemma HostSensorsDisjoint(h: Host)
    requires HostInv(h)
    ensures SensorsDisjoint(h.plugins)
  {
    forall i | 0 <= i < |h.plugins| ensures DistinctIds(h.plugins[i].sensors) {
      assert Listed(h.registry, i, h.plugins[i].sensors);
    }
    forall i, j | 0 <= i < j < |h.plugins| ensures IdsOf(h.plugins[i].sensors) !! IdsOf(h.plugins[j].sensors) {
      forall id | id in IdsOf(h.plugins[i].sensors) && id in IdsOf(h.plugins[j].sensors) ensures false {
        var k :| 0 <= k < |h.plugins[i].sensors| && h.plugins[i].sensors[k].id == id;
        var l :| 0 <= l < |h.plugins[j].sensors| && h.plugins[j].sensors[l].id == id;
        SensorsListedOnce(h, i, k, j, l);
      }
    }
  }

  /** From any sequence of manifests the host and the registry agree: each lookup by plugin and device id
      yields a device that plugin registered under that id, and each sensor appears at most once in all the
      device lists together. */
  lemma {:induction false} RegistryMatchesHost(manifests: seq<Manifest>)
    ensures var inv := Built(AfterAll(manifests).plugins); Indexed(inv) && SensorsOnce(inv.devices)
  {
    RegistrationIsSound(manifests);
    BuiltIsIndexed(AfterAll(manifests).plugins);
    HostSensorsDisjoint(AfterAll(manifests));
    BuiltSensorsOnce(AfterAll(manifests).plugins);
  }
}
