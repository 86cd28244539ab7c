/** Plugin processes, their registry and their ports. */
module PluginHost {
  import opened Wrappers

  const LAST_PORT := 65535

  /** What a start can end in: no port, a port out of range, a command that cannot be run, a
      process that does not become ready. */
  datatype Failure = NoFreePort | PortOutOfRange | CannotSpawn | NotReady

  class Process {
    const plugin: string
    const port: int
    var alive: bool

    constructor (plugin: string, port: int)
      ensures this.plugin == plugin && this.port == port && alive
    {
      this.plugin, this.port := plugin, port;
      alive := true;
    }
  }

  /** A probe fails on the ports in `taken`. The lowest free port from `start` on is found,
      unless every port is taken. Binding port 0 always succeeds; a start outside the port range
      is not probed but raises. */
  method AllocateFreePort(start: int, taken: set<int>) returns (r: Result<int, Failure>)
    ensures match r
            case Ok(port) =>
              if start == 0 then port == 0
              else 0 < start <= port <= LAST_PORT && port !in taken && forall q :: start <= q < port ==> q in taken
            case Err(NoFreePort) => 0 < start <= LAST_PORT && forall q :: start <= q <= LAST_PORT ==> q in taken
            case Err(e) => e == PortOutOfRange && !(0 <= start <= LAST_PORT)
  {
    if start == 0 { return Ok(0); }
    var port := start;
    if !(0 <= port <= LAST_PORT) { return Err(PortOutOfRange); }
    while port in taken
      invariant start <= port <= LAST_PORT
      invariant forall q :: start <= q < port ==> q in taken
      decreases LAST_PORT - port
    {
      port := port + 1;
      if port > LAST_PORT { return Err(NoFreePort); }
    }
    return Ok(port);
  }

  /** How a start goes: the command cannot be run, the process never gets ready, or it does. */
  datatype Fate = CannotRun | NeverReady | Runs

  function FirstFate(fates: seq<Fate>): Fate { if fates == [] then Runs else fates[0] }

  function LaterFates(fates: seq<Fate>): seq<Fate> { if fates == [] then [] else fates[1..] }

  class ServiceHost {
    const startPort: int

    /** Whether processes may exit by themselves, and other programs take and release ports, while the host waits. */
    const restless: bool

    var registry: map<string, Process>

    /** The process table, the ports other programs hold, and how the coming starts go; beyond
        its end all go well. */
    var processes: set<Process>
    var foreign: set<int>
    var fates: seq<Fate>

    ghost predicate Frame()
      reads this
    {
      && startPort > 0
      && forall name :: name in registry ==> registry[name] in processes && registry[name].plugin == name
    }

    /** Apart from `starting`, every live process is in the registry under its own plugin name,
        and no two live processes share a port. */
    ghost predicate SafeExcept(starting: set<Process>)
      reads this, processes
    {
      && Frame()
      && (forall p :: p in processes && p.alive && p !in starting ==> p.plugin in registry && registry[p.plugin] == p)
      && (forall p, q :: p in processes && q in processes && p.alive && q.alive && p != q ==> p.port != q.port)
    }

    ghost predicate Safe()
      reads this, processes
    {
      SafeExcept({})
    }

    predicate Running(name: string)
      reads this, processes, registry.Values
    {
      name in registry && registry[name].alive
    }

    constructor (startPort: int, restless: bool, fates: seq<Fate>)
      requires startPort > 0
      ensures Safe() && registry == map[] && processes == {} && foreign == {}
      ensures this.startPort == startPort && this.restless == restless && this.fates == fates
    {
      this.startPort, this.restless, this.fates := startPort, restless, fates;
      registry := map[];
      processes := {};
      foreign := {};
    }

    /** Nothing but the host's own calls has changed ports or ended processes. */
    twostate predicate Still()
      reads this, processes
    {
      foreign == old(foreign) && forall p :: p in old(processes) ==> p in processes && p.alive == old(p.alive)
    }

    /** The host waits. */
    method Await(ghost starting: set<Process>)
      requires SafeExcept(starting)
      modifies this`foreign, processes
      ensures SafeExcept(starting)
      ensures forall p :: p in processes && p.alive ==> old(p.alive)
      ensures !restless ==> Still()
    {
      if restless {
        var exiting: set<Process> :| exiting <= processes;
        forall p | p in exiting { p.alive := false; }
        foreign := *;
      }
    }

    /** `terminate_process`, which is taken to succeed */
    method Terminate(p: Process, ghost starting: set<Process>)
      requires SafeExcept(starting) && p in processes
      modifies this`foreign, processes
      ensures SafeExcept(starting - {p}) && !p.alive
      ensures forall q :: q in processes && q.alive ==> old(q.alive)
    {
      if !p.alive { return; }
      Await(starting);
      p.alive := false;
    }

    function PortsInUse(): set<int>
      reads this, processes
    {
      foreign + set p | p in processes && p.alive :: p.port
    }

    /** `Popen`: it raises, or the process runs. */
    method Spawn(name: string, port: int, ghost starting: set<Process>)
      returns (r: Result<Process, Failure>, fate: Fate)
      requires SafeExcept(starting) && port !in PortsInUse()
      modifies this`processes, this`fates
      ensures fate == FirstFate(old(fates)) && fates == LaterFates(old(fates))
      ensures match r
              case Err(e) => e == CannotSpawn && fate == CannotRun && processes == old(processes) &&
                             SafeExcept(starting)
              case Ok(p) => fate != CannotRun && fresh(p) && p.plugin == name && p.port == port && p.alive &&
                            processes == old(processes) + {p} && SafeExcept(starting + {p})
    {
      fate, fates := FirstFate(fates), LaterFates(fates);
      if fate == CannotRun { return Err(CannotSpawn), fate; }
      var process := new Process(name, port);
      processes := processes + {process};
      return Ok(process), fate;
    }

    /** `wait_for_service_ready`, then the fetch of the process's OpenAPI document */
    method WaitUntilReady(process: Process, fate: Fate, ghost starting: set<Process>) returns (ready: bool)
      requires SafeExcept(starting) && process in processes
      modifies this`foreign, processes
      ensures SafeExcept(starting)
      ensures forall p :: p in processes && p.alive ==> old(p.alive)
      ensures !restless ==> Still() && ready == (fate == Runs && process.alive)
      ensures ready ==> fate == Runs
    {
      Await(starting);
      ready := fate == Runs && process.alive;
      if ready { Await(starting); }
    }

    /** `_start_plugin_process`: a process that does not become ready is terminated; one that is
        returned is not yet registered. */
    method StartProcess(name: string, port: int) returns (r: Result<Process, Failure>)
      requires Safe() && port !in PortsInUse()
      modifies this`processes, this`foreign, this`fates, processes
      ensures old(processes) <= processes && fresh(processes - old(processes))
      ensures forall p :: p in old(processes) && p.alive ==> old(p.alive)
      ensures match r
              case Err(_) => Safe()
              case Ok(p) => SafeExcept({p}) && p in processes && fresh(p) && p.plugin == name && p.port == port
    {
      var fate;
      r, fate := Spawn(name, port, {});
      if r.Err? { return; }
      var ready := WaitUntilReady(r.value, fate, {r.value});
      if !ready {
        Terminate(r.value, {r.value});
        return Err(NotReady);
      }
    }

    /** `shutdown_services`: it reaches the registered processes, and only those. */
    method ShutdownServices(ghost orphans: set<Process>)
      requires SafeExcept(orphans)
      modifies this`registry, this`foreign, processes
      ensures SafeExcept(orphans) && registry == map[]
      ensures forall p :: p in processes && p !in orphans ==> !p.alive
      ensures forall p :: p in processes && p.alive ==> old(p.alive)
    {
      var services := registry.Keys;
      while services != {}
        invariant SafeExcept(orphans) && registry == old(registry) && services <= registry.Keys
        invariant forall name :: name in registry && name !in services ==> !registry[name].alive
        invariant forall p :: p in processes && p.alive ==> old(p.alive)
      {
        var name :| name in services;
        Terminate(registry[name], orphans);
        services := services - {name};
      }
      registry := map[];
    }

    /** One turn of `launch_services`: the process is registered before it is ready, and a start
        that fails shuts all down. A process registered under the name before is lost to the registry. */
    method LaunchOne(name: string, port: int, ghost lost: set<Process>)
      returns (r: Result<(), Failure>, ghost orphans: set<Process>)
      requires SafeExcept(lost) && lost <= processes && lost !! registry.Values && port !in PortsInUse()
      modifies this`registry, this`processes, this`foreign, this`fates, processes
      ensures SafeExcept(orphans) && orphans <= processes && orphans !! registry.Values
      ensures fresh(processes - old(processes)) && old(processes) <= processes
      ensures fates == LaterFates(old(fates))
      ensures !restless && FirstFate(old(fates)) == Runs ==> r.Ok?
      ensures match r
              case Err(CannotSpawn) => orphans == lost && registry == old(registry)
              case Err(e) => e == NotReady && registry == map[] &&
                             (orphans == {} <==> lost == {} && name !in old(registry))
              case Ok(_) =>
                && name in registry && registry == old(registry)[name := registry[name]]
                && processes == old(processes) + {registry[name]} && registry[name].port == port
                && orphans == lost + (if name in old(registry) then {old(registry)[name]} else {})
      ensures r.Ok? && !restless ==> Still() && registry[name].alive && PortsInUse() == old(PortsInUse()) + {port}
    {
      orphans := lost;
      var started, fate := Spawn(name, port, lost);
      if started.Err? { return Err(started.error), orphans; }
      if name in registry { orphans := orphans + {registry[name]}; }
      registry := registry[name := started.value];
      var ready := WaitUntilReady(started.value, fate, orphans);
      if !ready {
        ShutdownServices(orphans);
        return Err(NotReady), orphans;
      }
      return Ok(()), orphans;
    }

    /** A process runs that the registry does not know. */
    ghost predicate LosesAProcess()
      reads this, processes
    {
      exists p :: p in processes && p.alive && p !in registry.Values
    }

    lemma SafeLosesNothing()
      requires Safe()
      ensures !LosesAProcess()
    {
    }

    /** What is lost is what was replaced, if it is alive. */
    lemma LostAreOrphans(orphans: set<Process>)
      requires SafeExcept(orphans) && orphans <= processes && orphans !! registry.Values
      ensures LosesAProcess() <==> exists p :: p in orphans && p.alive
    {
    }

    ghost function LiveNames(): set<string>
      reads this, registry.Values
    {
      set n | n in registry && registry[n].alive
    }

    /** Nothing exits, and the next `n` starts find a free port each from `nextPort` on and go well. */
    ghost predicate ReadyFor(nextPort: int, n: int)
      reads this, processes
    {
      && !restless
      && (forall i :: 0 <= i < n && i < |fates| ==> fates[i] == Runs)
      && nextPort + n <= LAST_PORT + 1
      && forall q :: nextPort <= q < nextPort + n ==> q !in PortsInUse()
    }

    ghost predicate Undisturbed(n: nat)
      reads this, processes
    {
      ReadyFor(startPort, n)
    }

    /** What is alive in the registry, nothing having exited: what was started, and what was
        alive before under another name. */
    ghost predicate LiveAre(live: set<string>, names: seq<string>)
      reads this, registry.Values
    {
      forall n :: n in registry ==> (registry[n].alive <==> n in names || n in live)
    }

    /** After `names` were started: a process is lost where a name was taken, and a live one, if
        nothing exits, where it was taken by a live one. */
    ghost predicate Launched(taken: set<string>, live: set<string>, names: seq<string>, orphans: set<Process>)
      reads this, processes, registry.Values
    {
      && SafeExcept(orphans) && orphans <= processes && orphans !! registry.Values
      && registry.Keys == taken + (set n | n in names)
      && (orphans == {} <==> DistinctFrom(taken, names))
      && (!restless ==> LiveAre(live, names) && (LosesAProcess() <==> !DistinctFrom(live, names)))
    }

    /** One service more is launched on a free port, or the launch ends. */
    method LaunchNamed(name: string, port: int, ghost taken: set<string>, ghost live: set<string>,
                       ghost names: seq<string>, ghost lost: set<Process>)
      returns (r: Result<(), Failure>, ghost orphans: set<Process>)
      requires Launched(taken, live, names, lost) && live <= taken && port !in PortsInUse()
      modifies this`registry, this`processes, this`foreign, this`fates, processes
      ensures old(processes) <= processes && fresh(processes - old(processes)) && SafeExcept(orphans)
      ensures r.Ok? ==> Launched(taken, live, names + [name], orphans)
      ensures r.Err? ==> DistinctFrom(taken, names + [name]) ==> orphans == {}
      ensures r == Err(NotReady) ==> registry == map[]
      ensures fates == LaterFates(old(fates))
      ensures !restless && FirstFate(old(fates)) == Runs ==> r.Ok?
      ensures r.Ok? && !restless ==> PortsInUse() == old(PortsInUse()) + {port}
    {
      hide DistinctFrom, PortsInUse;
      DistinctSnoc(taken, names, name);
      DistinctSnoc(live, names, name);
      LostAreOrphans(lost);
      r, orphans := LaunchOne(name, port, lost);
      if r.Ok? { LostAreOrphans(orphans); }
    }

    method LaunchNext(name: string, nextPort: int, ghost taken: set<string>, ghost live: set<string>,
                      ghost names: seq<string>, ghost lost: set<Process>, ghost left: nat)
      returns (r: Result<int, Failure>, ghost orphans: set<Process>)
      requires Launched(taken, live, names, lost) && nextPort > 0 && live <= taken
      modifies this`registry, this`processes, this`foreign, this`fates, processes
      ensures old(processes) <= processes && fresh(processes - old(processes)) && SafeExcept(orphans)
      ensures r.Ok? ==> Launched(taken, live, names + [name], orphans) && r.value > 0
      ensures r.Err? ==> DistinctFrom(taken, names + [name]) ==> orphans == {}
      ensures r == Err(NotReady) ==> registry == map[]
      ensures left > 0 && old(ReadyFor(nextPort, left)) ==> r.Ok? && ReadyFor(r.value, left - 1)
    {
      hide DistinctFrom, LosesAProcess, LiveAre, PortsInUse;
      DistinctSnoc(taken, names, name);
      var found := AllocateFreePort(nextPort, PortsInUse());
      assert left > 0 && ReadyFor(nextPort, left) ==> nextPort !in PortsInUse();
      if found.Err? { return Err(found.error), lost; }
      var launched;
      launched, orphans := LaunchNamed(name, found.value, taken, live, names, lost);
      if launched.Err? { return Err(launched.error), orphans; }
      return Ok(found.value + 1), orphans;
    }

    /** `launch_services`: when the names are all different, no process is lost, whatever exits or
        fails. When they are not, and nothing exits, a successful launch does lose a live one; and
        undisturbed, the launch succeeds. */
    method LaunchServices(services: seq<Discovered>) returns (r: Result<(), Failure>)
      requires Safe()
      modifies this`registry, this`processes, this`foreign, this`fates, processes
      ensures DistinctFrom(old(registry).Keys, StartedNames(services)) ==> Safe() && !LosesAProcess()
      ensures r.Ok? && !restless ==> (LosesAProcess() <==> !DistinctFrom(old(LiveNames()), StartedNames(services)))
      ensures old(Undisturbed(|StartedNames(services)|)) ==> r.Ok?
      ensures r.Ok? ==> registry.Keys == old(registry).Keys + set n | n in StartedNames(services)
      ensures r.Ok? ==>
                forall n :: n in registry <==>
                  || n in old(registry)
                  || exists i :: 0 <= i < |services| && services[i].autoStart && services[i].name == n
      ensures r == Err(NotReady) ==> registry == map[]
    {
      hide DistinctFrom, StartedNames;
      ghost var orphans: set<Process> := {};
      var nextPort := startPort;
      ghost var taken, live := registry.Keys, LiveNames();
      ghost var names: seq<string> := [];
      ghost var total := |StartedNames(services)|;
      ghost var easy := Undisturbed(total);
      SafeLosesNothing();
      StartedNone(taken);
      StartedNone(live);
      for i := 0 to |services|
        invariant names == StartedNames(services[..i]) && |names| <= total
        invariant nextPort > 0 && Launched(taken, live, names, orphans)
        invariant old(processes) <= processes && fresh(processes - old(processes))
        invariant easy ==> ReadyFor(nextPort, total - |names|)
      {
        var service := services[i];
        StartedStep(taken, services, i);
        if !service.autoStart { continue; }
        var started;
        started, orphans := LaunchNext(service.name, nextPort, taken, live, names, orphans, total - |names|);
        if started.Err? {
          if DistinctFrom(taken, StartedNames(services)) { SafeLosesNothing(); }
          return Err(started.error);
        }
        names := names + [service.name];
        nextPort := started.value;
      }
      assert services[..|services|] == services;
      if DistinctFrom(taken, StartedNames(services)) { SafeLosesNothing(); }
      StartedNamesAre(services);
      return Ok(());
    }
  }

  datatype Discovered = Discovered(name: string, autoStart: bool)

  /** The names of the services that are started, in order. */
  function StartedNames(services: seq<Discovered>): seq<string> {
    if services == [] then []
    else
      var last := services[|services| - 1];
      StartedNames(services[..|services| - 1]) + (if last.autoStart then [last.name] else [])
  }

  /** They are the names of the services with `autoStart`, */
  lemma {:induction false} StartedNamesAre(services: seq<Discovered>)
    ensures forall n :: n in StartedNames(services) <==>
              exists i :: 0 <= i < |services| && services[i].autoStart && services[i].name == n
  {
    if services != [] {
      var n := |services| - 1;
      StartedNamesAre(services[..n]);
      assert forall i :: 0 <= i < n ==> services[..n][i] == services[i];
    }
  }

  /** No two services with `autoStart` share a name, and none has a name of `taken`. */
  ghost predicate NamedApart(services: seq<Discovered>, taken: set<string>) {
    && (forall i :: 0 <= i < |services| && services[i].autoStart ==> services[i].name !in taken)
    && (forall i, j :: 0 <= i < j < |services| && services[i].autoStart && services[j].autoStart ==>
          services[i].name != services[j].name)
  }

  lemma NamedApartSnoc(services: seq<Discovered>, taken: set<string>)
    requires services != []
    ensures var n := |services| - 1;
            NamedApart(services, taken) <==>
              && NamedApart(services[..n], taken)
              && (services[n].autoStart ==>
                    services[n].name !in taken && services[n].name !in StartedNames(services[..n]))
  {
    var n := |services| - 1;
    var rest := services[..n];
    StartedNamesAre(rest);
    hide StartedNames;
    assert forall i :: 0 <= i < n ==> rest[i] == services[i];
    if NamedApart(rest, taken) && services[n].autoStart && services[n].name in StartedNames(rest) {
      var i :| 0 <= i < |rest| && rest[i].autoStart && rest[i].name == services[n].name;
      assert services[i].name == services[n].name;
    }
  }

  /** and distinct when those are. */
  lemma {:induction false} StartedApartIff(services: seq<Discovered>, taken: set<string>)
    ensures DistinctFrom(taken, StartedNames(services)) <==> NamedApart(services, taken)
  {
    if services == [] {
      StartedNone(taken);
    } else {
      var n := |services| - 1;
      StartedApartIff(services[..n], taken);
      NamedApartSnoc(services, taken);
      if services[n].autoStart { DistinctSnoc(taken, StartedNames(services[..n]), services[n].name); }
      hide NamedApart, DistinctFrom;
      assert !services[n].autoStart ==> StartedNames(services) == StartedNames(services[..n]);
    }
  }

  predicate DistinctFrom(taken: set<string>, names: seq<string>) {
    && (forall i :: 0 <= i < |names| ==> names[i] !in taken)
    && (forall i, j :: 0 <= i < j < |names| ==> names[i] != names[j])
  }

  lemma StartedNone(taken: set<string>)
    ensures StartedNames([]) == [] && DistinctFrom(taken, [])
  {
  }

  /** The next service adds its name; and what is distinct as a whole is distinct so far. */
  lemma StartedStep(taken: set<string>, services: seq<Discovered>, n: nat)
    requires n < |services|
    ensures StartedNames(services[..n + 1]) ==
            StartedNames(services[..n]) + (if services[n].autoStart then [services[n].name] else [])
    ensures |StartedNames(services[..n + 1])| <= |StartedNames(services)|
    ensures DistinctFrom(taken, StartedNames(services)) ==>
              DistinctFrom(taken, StartedNames(services[..n])) && DistinctFrom(taken, StartedNames(services[..n + 1]))
  {
    assert services[..n + 1][..n] == services[..n];
    StartedPrefix(services, n);
    StartedPrefix(services, n + 1);
    if DistinctFrom(taken, StartedNames(services)) {
      DistinctPrefix(taken, StartedNames(services[..n]), StartedNames(services));
      DistinctPrefix(taken, StartedNames(services[..n + 1]), StartedNames(services));
    }
  }

  lemma DistinctPrefix(taken: set<string>, some: seq<string>, all: seq<string>)
    requires some <= all && DistinctFrom(taken, all)
    ensures DistinctFrom(taken, some)
  {
  }

  lemma {:induction false} StartedPrefix(services: seq<Discovered>, n: nat)
    requires n <= |services|
    ensures StartedNames(services[..n]) <= StartedNames(services)
  {
    if n < |services| {
      StartedPrefix(services[..|services| - 1], n);
      assert services[..|services| - 1][..n] == services[..n];
    } else {
      assert services[..n] == services;
    }
  }

  lemma DistinctSnoc(taken: set<string>, names: seq<string>, name: string)
    ensures DistinctFrom(taken, names + [name]) <==> DistinctFrom(taken, names) && name !in taken && name !in names
  {
    var all := names + [name];
    if DistinctFrom(taken, all) {
      assert all[|names|] == name;
      assert forall i :: 0 <= i < |names| ==> all[i] == names[i];
    }
  }

  /** Two services of one name, and nothing amiss: the first one's process runs on, and the
      registry no longer knows it. */
  method RepeatedNameLosesAProcess(name: string, startPort: int) returns (host: ServiceHost)
    requires 0 < startPort < LAST_PORT
    ensures fresh(host) && host.LosesAProcess()
  {
    host := new ServiceHost(startPort, false, []);
    var service := Discovered(name, true);
    var twice := [service, service];
    assert StartedNames(twice) == [name, name] by {
      assert twice[..1] == [service] && [service][..0] == [];
      assert StartedNames([service]) == [name];
    }
    assert !DistinctFrom(host.LiveNames(), [name, name]) by { assert [name, name][0] == [name, name][1]; }
    assert host.Undisturbed(2);
    var r := host.LaunchServices(twice);
  }
}
