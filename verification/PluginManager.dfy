/** Starting, applying and stopping plugins from the mappings table. */
module PluginManager {
  import opened Wrappers
  import opened PluginHost
  import opened PluginTable

  datatype Refusal = WebConcurrency | TableConflict | ServiceMissing | CannotStart(failure: Failure)

  /** An enabled mapping whose service is there to be started. */
  predicate Startable(m: Mapping, discovered: seq<Discovered>) {
    m.enabled && exists i :: 0 <= i < |discovered| && discovered[i].name == m.serviceName
  }

  function StartableNames(rows: seq<Mapping>, discovered: seq<Discovered>): set<string> {
    set m | m in rows && Startable(m, discovered) :: m.pluginName
  }

  function ServiceNames(discovered: seq<Discovered>): seq<string> {
    seq(|discovered|, i requires 0 <= i < |discovered| => discovered[i].name)
  }

  /** No row before the `n`-th has its plugin name. */
  lemma NameIsNew(rows: seq<Mapping>, n: nat, discovered: seq<Discovered>)
    requires Unique(rows) && n < |rows|
    ensures rows[n].pluginName !in StartableNames(rows[..n], discovered)
    ensures StartableNames(rows[..n + 1], discovered) ==
            StartableNames(rows[..n], discovered) +
            (if Startable(rows[n], discovered) then {rows[n].pluginName} else {})
  {
    forall i | 0 <= i < n { UniqueRowsDiffer(rows, i, n); }
    assert rows[..n + 1] == rows[..n] + [rows[n]];
  }

  lemma NoNames(discovered: seq<Discovered>)
    ensures StartableNames([], discovered) == {}
  {
  }

  lemma FewerNames(rows: seq<Mapping>, n: nat, discovered: seq<Discovered>)
    requires n <= |rows|
    ensures StartableNames(rows[..n], discovered) <= StartableNames(rows, discovered)
  {
  }

  class Manager {
    const host: ServiceHost
    var mappings: seq<Mapping>

    /** Whatever happened so far, every live process is registered under its own plugin name,
        no two share a port, and the table keeps its unique columns. */
    ghost predicate Valid()
      reads this, host, host.processes
    {
      host.Safe() && Unique(mappings)
    }

    constructor (startPort: int, restless: bool, fates: seq<Fate>)
      requires startPort > 0
      ensures Valid() && fresh(host) && host.registry == map[] && mappings == []
    {
      host := new ServiceHost(startPort, restless, fates);
      mappings := [];
    }

    /** Between calls, processes may exit by themselves. */
    method Idle()
      requires Valid()
      modifies host`foreign, host`fates, host.processes
      ensures Valid()
    {
      host.Await({});
    }

    method Shutdown()
      requires Valid()
      modifies host`registry, host`foreign, host`fates, host.processes
      ensures Valid() && host.registry == map[] && forall p :: p in host.processes ==> !p.alive
    {
      host.ShutdownServices({});
    }

    /** `startup`: it may raise midway, at the flush or at any start; what was started by then
        stays registered. */
    method Startup(enabled: bool, webConcurrency: int, discovered: seq<Discovered>) returns (r: Result<(), Refusal>)
      requires Valid()
      modifies this`mappings, host`registry, host`processes, host`foreign, host`fates, host.processes
      ensures Valid()
      ensures !enabled ==> r.Ok? && host.registry == map[] && forall p :: p in host.processes ==> !p.alive
      ensures enabled && webConcurrency > 1 ==> r == Err(WebConcurrency) && host.registry == old(host.registry)
      ensures enabled && webConcurrency <= 1 ==> host.registry.Keys <= StartableNames(mappings, discovered)
      ensures enabled && r.Ok? ==> host.registry.Keys == StartableNames(mappings, discovered)
      ensures enabled && r.Ok? ==>
                forall name :: name in host.registry <==>
                  exists m, i :: m in mappings && m.enabled && m.pluginName == name &&
                                 0 <= i < |discovered| && discovered[i].name == m.serviceName
      ensures (r.Err? && r.error.CannotStart?) || (r.Ok? && enabled) ==>
                multiset(mappings) == multiset(old(mappings) + Missing(old(mappings), ServiceNames(discovered)))
      ensures r == Err(TableConflict) ==> mappings == old(mappings) && host.registry == map[]
    {
      if !enabled {
        host.ShutdownServices({});
        return Ok(());
      }
      if webConcurrency > 1 { return Err(WebConcurrency); }
      host.ShutdownServices({});
      var synced := SyncPluginMappings(mappings, ServiceNames(discovered));
      if synced.Err? { return Err(TableConflict); }
      mappings := synced.value;
      r := StartAll(discovered);
    }

    /** The start loop of `startup` */
    method StartAll(discovered: seq<Discovered>) returns (r: Result<(), Refusal>)
      requires Valid() && host.registry == map[]
      modifies host`registry, host`processes, host`foreign, host`fates, host.processes
      ensures Valid()
      ensures r.Err? ==> r.error.CannotStart?
      ensures host.registry.Keys <= StartableNames(mappings, discovered)
      ensures r.Ok? ==> host.registry.Keys == StartableNames(mappings, discovered)
    {
      hide Startable, StartableNames, Unique;
      var nextPort := host.startPort;
      NoNames(discovered);
      for i := 0 to |mappings|
        invariant Valid() && nextPort > 0
        invariant old(host.processes) <= host.processes && fresh(host.processes - old(host.processes))
        invariant host.registry.Keys == StartableNames(mappings[..i], discovered)
      {
        NameIsNew(mappings, i, discovered);
        FewerNames(mappings, i, discovered);
        if !Startable(mappings[i], discovered) { continue; }
        var port := AllocateFreePort(nextPort, host.PortsInUse());
        if port.Err? { return Err(CannotStart(port.error)); }
        nextPort := port.value + 1;
        var started := host.StartProcess(mappings[i].pluginName, port.value);
        if started.Err? { return Err(CannotStart(started.error)); }
        host.registry := host.registry[mappings[i].pluginName := started.value];
      }
      assert mappings[..|mappings|] == mappings;
      return Ok(());
    }

    /** `apply_mapping_state` */
    method ApplyMappingState(mapping: Mapping, discovered: seq<Discovered>) returns (r: Result<(), Refusal>)
      requires Valid()
      modifies host`registry, host`processes, host`foreign, host`fates, host.processes
      ensures Valid()
      ensures !mapping.enabled ==> r.Ok? && host.registry == old(host.registry) - {mapping.pluginName}
      ensures !mapping.enabled ==> forall p :: p in host.processes && p.plugin == mapping.pluginName ==> !p.alive
      ensures mapping.enabled && r.Ok? ==> mapping.pluginName in host.registry
      ensures host.registry - {mapping.pluginName} == old(host.registry) - {mapping.pluginName}
      ensures mapping.enabled && r.Ok? && old(host.Running(mapping.pluginName)) ==> host.registry == old(host.registry)
      ensures r.Err? ==> host.registry == old(host.registry)
      ensures r == Err(ServiceMissing) <==>
                && mapping.enabled && !old(host.Running(mapping.pluginName))
                && forall i :: 0 <= i < |discovered| ==> discovered[i].name != mapping.serviceName
    {
      var name := mapping.pluginName;
      if !mapping.enabled {
        if name in host.registry {
          host.Terminate(host.registry[name], {});
          host.registry := host.registry - {name};
        }
        return Ok(());
      }
      if host.Running(name) { return Ok(()); }
      if !Startable(mapping, discovered) { return Err(ServiceMissing); }
      var port := AllocateFreePort(host.startPort, host.PortsInUse());
      if port.Err? { return Err(CannotStart(port.error)); }
      var started := host.StartProcess(name, port.value);
      if started.Err? { return Err(CannotStart(started.error)); }
      host.registry := host.registry[name := started.value];
      return Ok(());
    }
  }
}
