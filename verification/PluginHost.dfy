/** Registering plugins and their sensors (`finish_register`, apps/linsightd/src/plugin_host.rs). */
module PluginHosts {
  import opened Prelude
  import opened DeviceLabels

  datatype Sensor = Sensor(id: string, displayName: string, deviceKey: Option<string>)

  datatype Manifest = Manifest(pluginId: string, displayName: string, version: string, sensors: seq<Sensor>, devices: seq<Device>)

  datatype Plugin = Plugin(
    pluginId: string, displayName: string, version: string, sensorCount: nat, devices: seq<Device>, sensors: seq<Sensor>)

  type Registry = map<string, (nat, Sensor)>   // sensor id -> owning plugin and descriptor

  datatype Host = Host(plugins: seq<Plugin>, registry: Registry)

  // ---- what registration does -------------------------------------------------------------------

  predicate Knows(plugins: seq<Plugin>, pluginId: string)
  {
    exists i :: 0 <= i < |plugins| && plugins[i].pluginId == pluginId
  }

  /** The descriptors that are accepted: the first for each id not registered before. */
  function Taken(registry: Registry, idx: nat, sensors: seq<Sensor>): (seq<Sensor>, Registry)
  {
    if sensors == [] then ([], registry)
    else
      var (list, reg) := Taken(registry, idx, sensors[..|sensors| - 1]);
      var d := sensors[|sensors| - 1];
      if d.id in reg then (list, reg) else (list + [d], reg[d.id := (idx, d)])
  }

  function Registered(h: Host, m: Manifest): Host
  {
    if Knows(h.plugins, m.pluginId) then h
    else
      var (list, reg) := Taken(h.registry, |h.plugins|, m.sensors);
      Host(h.plugins + [Plugin(m.pluginId, m.displayName, m.version, |list|, m.devices, list)], reg)
  }

  class PluginHost {
    var plugins: seq<Plugin>
    var registry: Registry

    ghost function View(): Host
      reads this
    {
      Host(plugins, registry)
    }

    constructor ()
      ensures View() == Host([], map[])
    {
      plugins, registry := [], map[];
    }

    method FinishRegister(m: Manifest)
      modifies this
      ensures View() == Registered(old(View()), m)
    {
      for i := 0 to |plugins|
        invariant forall j | 0 <= j < i :: plugins[j].pluginId != m.pluginId
      {
        if plugins[i].pluginId == m.pluginId { return; }
      }
      var idx := |plugins|;
      var accepted: nat := 0;
      var sensors: seq<Sensor> := [];
      for n := 0 to |m.sensors|
        invariant (sensors, registry) == Taken(old(registry), idx, m.sensors[..n])
        invariant plugins == old(plugins) && accepted == |sensors|
      {
        assert m.sensors[..n + 1][..n] == m.sensors[..n];
        var d := m.sensors[n];
        if d.id !in registry {
          sensors := sensors + [d];
          registry := registry[d.id := (idx, d)];
          accepted := accepted + 1;
        }
      }
      assert m.sensors[..|m.sensors|] == m.sensors;
      plugins := plugins + [Plugin(m.pluginId, m.displayName, m.version, accepted, m.devices, sensors)];
    }

    method PluginIdFor(id: string) returns (r: Option<string>)
      requires HostInv(View())
      ensures r.None? <==> id !in registry
      ensures r.Some? ==>
                exists i :: 0 <= i < |plugins| && plugins[i].pluginId == r.value && registry[id].1 in plugins[i].sensors
    {
      if id !in registry { return None; }
      assert Owned(View(), id);
      r := Some(plugins[registry[id].0].pluginId);
    }
  }

  // ---- what every sequence of registrations keeps -----------------------------------------------

  /** The registry names an owner in range whose own list holds the descriptor. */
  ghost predicate Owned(h: Host, id: string)
  {
    && id in h.registry && h.registry[id].0 < |h.plugins|
    && h.registry[id].1.id == id && h.registry[id].1 in h.plugins[h.registry[id].0].sensors
  }

  ghost predicate UniquePlugins(plugins: seq<Plugin>)
  {
    forall i, j | 0 <= i < j < |plugins| :: plugins[i].pluginId != plugins[j].pluginId
  }

  /** Every listed descriptor is the registered one, listed once. */
  ghost predicate Listed(registry: Registry, idx: nat, sensors: seq<Sensor>)
  {
    && (forall k | 0 <= k < |sensors| :: sensors[k].id in registry && registry[sensors[k].id] == (idx, sensors[k]))
    && (forall k, l | 0 <= k < l < |sensors| :: sensors[k].id != sensors[l].id)
  }

  ghost function SumCounts(plugins: seq<Plugin>): nat
  {
    if plugins == [] then 0 else SumCounts(plugins[..|plugins| - 1]) + plugins[|plugins| - 1].sensorCount
  }

  ghost predicate HostInv(h: Host)
  {
    && UniquePlugins(h.plugins)
    && (forall id | id in h.registry :: Owned(h, id))
    && (forall i | 0 <= i < |h.plugins| :: Listed(h.registry, i, h.plugins[i].sensors))
    && SumCounts(h.plugins) == |h.registry|
  }

  /** Accepting keeps what was registered, and adds exactly the accepted descriptors. */
  ghost predicate Extends(before: Registry, idx: nat, list: seq<Sensor>, after: Registry)
  {
    && (forall id | id in before :: id in after && after[id] == before[id])
    && (forall id | id in after && id !in before :: after[id].0 == idx && after[id].1.id == id && after[id].1 in list)
    && (forall k | 0 <= k < |list| :: list[k].id !in before)
    && Listed(after, idx, list)
    && |after| == |before| + |list|
  }

  lemma {:induction false} TakenExtends(registry: Registry, idx: nat, sensors: seq<Sensor>)
    ensures var (list, reg) := Taken(registry, idx, sensors); Extends(registry, idx, list, reg)
  {
    if sensors == [] {
    } else {
      TakenExtends(registry, idx, sensors[..|sensors| - 1]);
      var (list, reg) := Taken(registry, idx, sensors[..|sensors| - 1]);
      var d := sensors[|sensors| - 1];
      if d.id !in reg { ExtendOne(registry, idx, list, reg, d); }
    }
  }

  lemma ExtendOne(before: Registry, idx: nat, list: seq<Sensor>, reg: Registry, d: Sensor)
    requires Extends(before, idx, list, reg) && d.id !in reg
    ensures Extends(before, idx, list + [d], reg[d.id := (idx, d)])
  {
    var list', reg' := list + [d], reg[d.id := (idx, d)];
    assert reg'.Keys == reg.Keys + {d.id};
    ListOne(idx, list, reg, d);
    assert d in list';
    forall id | id in reg' && id !in before ensures reg'[id].0 == idx && reg'[id].1.id == id && reg'[id].1 in list' {
      if id != d.id { assert reg[id].1 in list; }
    }
  }

  lemma ListOne(idx: nat, list: seq<Sensor>, reg: Registry, d: Sensor)
    requires Listed(reg, idx, list) && d.id !in reg
    ensures Listed(reg[d.id := (idx, d)], idx, list + [d])
  {
    var list', reg' := list + [d], reg[d.id := (idx, d)];
    forall k | 0 <= k < |list'| ensures list'[k].id in reg' && reg'[list'[k].id] == (idx, list'[k]) {
      if k < |list| { assert list'[k] == list[k]; }
    }
    forall k, l | 0 <= k < l < |list'| ensures list'[k].id != list'[l].id {
      assert list'[k] == list[k] && list[k].id in reg;
    }
  }

  lemma RegisterKeepsOwners(h: Host, m: Manifest)
    requires HostInv(h) && !Knows(h.plugins, m.pluginId)
    ensures var t := Registered(h, m);
            && (forall id | id in t.registry :: Owned(t, id))
            && (forall i | 0 <= i < |t.plugins| :: Listed(t.registry, i, t.plugins[i].sensors))
  {
    TakenExtends(h.registry, |h.plugins|, m.sensors);
    var t := Registered(h, m);
    forall id | id in t.registry ensures Owned(t, id) {
      if id in h.registry { assert Owned(h, id); }
    }
    forall i | 0 <= i < |t.plugins| ensures Listed(t.registry, i, t.plugins[i].sensors) {
      if i < |h.plugins| { StillListed(h.registry, t.registry, i, h.plugins[i].sensors); }
    }
  }

  lemma StillListed(before: Registry, after: Registry, idx: nat, sensors: seq<Sensor>)
    requires Listed(before, idx, sensors) && forall id | id in before :: id in after && after[id] == before[id]
    ensures Listed(after, idx, sensors)
  {
  }

  lemma RegisterKeepsInv(h: Host, m: Manifest)
    requires HostInv(h)
    ensures HostInv(Registered(h, m))
  {
    if !Knows(h.plugins, m.pluginId) {
      RegisterKeepsOwners(h, m);
      RegisterKeepsCounts(h, m);
    }
  }

  lemma RegisterKeepsCounts(h: Host, m: Manifest)
    requires UniquePlugins(h.plugins) && SumCounts(h.plugins) == |h.registry| && !Knows(h.plugins, m.pluginId)
    ensures var t := Registered(h, m); UniquePlugins(t.plugins) && SumCounts(t.plugins) == |t.registry|
  {
    TakenExtends(h.registry, |h.plugins|, m.sensors);
    var t := Registered(h, m);
    assert t.plugins[..|h.plugins|] == h.plugins;
  }

  ghost function AfterAll(manifests: seq<Manifest>): Host
  {
    if manifests == [] then Host([], map[])
    else Registered(AfterAll(manifests[..|manifests| - 1]), manifests[|manifests| - 1])
  }

  /** For any sequence of manifests: plugin ids are unique, every registered sensor has an owner in range
      whose list holds its descriptor, every listed descriptor is the registered one, and the sensor counts
      add up to the size of the registry. */
  lemma {:induction false} RegistrationIsSound(manifests: seq<Manifest>)
    ensures HostInv(AfterAll(manifests))
  {
    if manifests == [] {
    } else {
      RegistrationIsSound(manifests[..|manifests| - 1]);
      RegisterKeepsInv(AfterAll(manifests[..|manifests| - 1]), manifests[|manifests| - 1]);
    }
  }

  /** Sensor `k` of the list is the first with its id and new to the registry. */
  ghost predicate IsFirst(registry: Registry, sensors: seq<Sensor>, k: nat)
  {
    k < |sensors| && sensors[k].id !in registry && forall l | 0 <= l < k :: sensors[l].id != sensors[k].id
  }

  lemma {:induction false} TakenIsComplete(registry: Registry, idx: nat, sensors: seq<Sensor>, k: nat)
    requires k < |sensors|
    ensures var reg := Taken(registry, idx, sensors).1;
            && sensors[k].id in reg
            && (IsFirst(registry, sensors, k) ==> reg[sensors[k].id] == (idx, sensors[k]))
  {
    var front := sensors[..|sensors| - 1];
    if k < |front| {
      TakenIsComplete(registry, idx, front, k);
      assert IsFirst(registry, sensors, k) ==> IsFirst(registry, front, k);
    } else if sensors[k].id in Taken(registry, idx, front).1 {
      TakenOnly(registry, idx, front, sensors[k].id);
    }
  }

  /** Only ids that were registered or offered end up in the registry. */
  lemma {:induction false} TakenOnly(registry: Registry, idx: nat, sensors: seq<Sensor>, id: string)
    requires id in Taken(registry, idx, sensors).1
    ensures id in registry || exists l :: 0 <= l < |sensors| && sensors[l].id == id
  {
    if sensors == [] {
    } else {
      var front := sensors[..|sensors| - 1];
      if id in Taken(registry, idx, front).1 {
        TakenOnly(registry, idx, front, id);
        if l :| 0 <= l < |front| && front[l].id == id { assert sensors[l].id == id; }
      } else {
        assert sensors[|sensors| - 1].id == id;
      }
    }
  }

  /** A plugin with a new id is always taken in, every sensor it offers is registered by someone, and the
      first offer of a new id is registered as offered, under this plugin. */
  lemma RegistrationIsComplete(h: Host, m: Manifest, k: nat)
    requires !Knows(h.plugins, m.pluginId) && k < |m.sensors|
    ensures var t := Registered(h, m);
            && |t.plugins| == |h.plugins| + 1 && t.plugins[|h.plugins|].pluginId == m.pluginId
            && m.sensors[k].id in t.registry
            && (IsFirst(h.registry, m.sensors, k) ==> t.registry[m.sensors[k].id] == (|h.plugins|, m.sensors[k]))
  {
    TakenIsComplete(h.registry, |h.plugins|, m.sensors, k);
  }

  /** No descriptor is listed twice, neither in one plugin nor across two. */
  lemma SensorsListedOnce(h: Host, i: nat, k: nat, j: nat, l: nat)
    requires HostInv(h) && i < |h.plugins| && j < |h.plugins|
    requires k < |h.plugins[i].sensors| && l < |h.plugins[j].sensors|
    requires h.plugins[i].sensors[k].id == h.plugins[j].sensors[l].id
    ensures i == j && k == l
  {
    assert Listed(h.registry, i, h.plugins[i].sensors) && Listed(h.registry, j, h.plugins[j].sensors);
  }
}
