/** sicky.go's serviceToRegistryInstance, followed through the Consul registry into the pool. */
module EndToEnd {
  import opened Instances
  import opened Listings
  import opened Grouping
  import Metadata
  import Consul = ConsulCodec
  import RegistryPool

  /** What a server object reports about itself. */
  datatype ServerInfo = ServerInfo(id: UUID, kind: string, name: string, address: string, port: int)

  datatype AppInfo = AppInfo(appName: string, version: string, commit: string, buildTime: string, branch: string)

  datatype Manager = Manager(address: string, port: int)

  /** A service with its options; its metadata is a live map, or nil. */
  class Service {
    const id: UUID
    const name: string
    const kind: string
    const servers: seq<ServerInfo>
    const metadata: Metadata.Table?

    constructor (id: UUID, name: string, kind: string, servers: seq<ServerInfo>, metadata: Metadata.Table?)
      ensures this.id == id && this.name == name && this.kind == kind
      ensures this.servers == servers && this.metadata == metadata
    {
      this.id, this.name, this.kind, this.servers, this.metadata := id, name, kind, servers, metadata;
    }
  }

  /** No later server has the name of server i. */
  ghost predicate LastNamed(infos: seq<ServerInfo>, i: int) {
    0 <= i < |infos| && forall j :: i < j < |infos| ==> infos[j].name != infos[i].name
  }

  /** The entry is what the server reports about itself, as a server of instance `id`. */
  predicate Reports(s: Server, id: UUID, info: ServerInfo) {
    && s.id == info.id && s.instanceId == id && s.kind == info.kind && s.name == info.name
    && s.advertiseAddress == info.address && s.port == info.port
  }

  /** There is one server under each name in use. */
  ghost predicate NamesInUse(infos: seq<ServerInfo>, servers: map<string, Server>) {
    && (forall n :: n in servers ==> exists i :: 0 <= i < |infos| && infos[i].name == n)
    && (forall i :: 0 <= i < |infos| ==> infos[i].name in servers)
  }

  /** The servers of instance `id`: one under each name in use, as the last server with that
      name reports itself. */
  ghost predicate Announces(id: UUID, infos: seq<ServerInfo>, servers: map<string, Server>) {
    && NamesInUse(infos, servers)
    && forall i :: LastNamed(infos, i) ==> Reports(servers[infos[i].name], id, infos[i])
  }

  const APP_KEYS := {"AppName", "version", "Commit", "BuildTime", "Branch"}

  /** The metadata describe the application under five keys, and are the service's own under
      every other. */
  ghost predicate Describes(own: map<string, string>, app: AppInfo, metadata: map<string, string>) {
    && APP_KEYS <= metadata.Keys
    && metadata["AppName"] == app.appName && metadata["version"] == app.version
    && metadata["Commit"] == app.commit && metadata["BuildTime"] == app.buildTime
    && metadata["Branch"] == app.branch
    && forall k :: k !in APP_KEYS ==> (k in metadata <==> k in own) && (k in own ==> metadata[k] == own[k])
  }

  /** The instance built for a service whose metadata currently holds `metadata`. */
  ghost predicate BuiltFrom(svc: Service, metadata: map<string, string>, app: AppInfo,
                            manager: Option<Manager>, x: Instance) {
    && x.id == svc.id && x.serviceName == svc.name && x.kind == svc.kind
    && x.managerAddress == (if manager.Some? then manager.value.address else "")
    && x.managerPort == (if manager.Some? then manager.value.port else 0)
    && Announces(svc.id, svc.servers, x.servers) && x.topics == map[] && x.tags == []
    && Describes(metadata, app, x.metadata)
    && x.advertiseAddress == "" && x.checkEntryPoint == "" && x.weight == 0 && x.status == 0 && x.ttl == 0
  }

  lemma {:induction false} HasLastNamed(infos: seq<ServerInfo>, i: nat) returns (j: nat)
    requires i < |infos|
    ensures LastNamed(infos, j) && infos[j].name == infos[i].name
    decreases |infos| - i
  {
    if LastNamed(infos, i) {
      j := i;
    } else {
      var next: nat :| i < next < |infos| && infos[next].name == infos[i].name;
      j := HasLastNamed(infos, next);
    }
  }

  /** A built instance keys its servers by their names, even when names repeat. */
  lemma BuiltKeyedByName(svc: Service, metadata: map<string, string>, app: AppInfo,
                         manager: Option<Manager>, x: Instance)
    requires BuiltFrom(svc, metadata, app, manager, x)
    ensures Consul.KeyedByName(x.servers)
  {
    forall n | n in x.servers ensures x.servers[n].name == n {
      var i :| 0 <= i < |svc.servers| && svc.servers[i].name == n;
      var j := HasLastNamed(svc.servers, i);
    }
  }

  lemma NamesNext(infos: seq<ServerInfo>, info: ServerInfo, servers: map<string, Server>, s: Server)
    requires NamesInUse(infos, servers)
    ensures NamesInUse(infos + [info], servers[info.name := s])
  {
    var all, servers' := infos + [info], servers[info.name := s];
    assert all[|infos|] == info;
    forall n | n in servers' ensures exists i :: 0 <= i < |all| && all[i].name == n {
      if n != info.name {
        var i :| 0 <= i < |infos| && infos[i].name == n;
        assert all[i].name == n;
      }
    }
  }

  lemma AnnouncesNext(id: UUID, infos: seq<ServerInfo>, info: ServerInfo, servers: map<string, Server>, s: Server)
    requires Announces(id, infos, servers) && Reports(s, id, info)
    ensures Announces(id, infos + [info], servers[info.name := s])
  {
    NamesNext(infos, info, servers, s);
    hide Reports, NamesInUse;
    var all, n := infos + [info], |infos|;
    assert all[n] == info;
    forall i | LastNamed(all, i) ensures Reports(servers[info.name := s][all[i].name], id, all[i]) {
      if i < n {
        assert all[i] == infos[i] && all[n].name != all[i].name;
        assert forall j :: i < j < n ==> all[j] == infos[j];
        assert LastNamed(infos, i);
      }
    }
  }

  method BuildServers(svc: Service) returns (servers: map<string, Server>)
    ensures Announces(svc.id, svc.servers, servers)
  {
    hide Announces;
    servers := map[];
    NoServers(svc.id, svc.servers);
    for i := 0 to |svc.servers|
      invariant Announces(svc.id, svc.servers[..i], servers)
    {
      var info := svc.servers[i];
      var s := Server(info.id, svc.id, info.kind, info.name, info.address, info.port);
      AnnouncesNext(svc.id, svc.servers[..i], info, servers, s);
      assert svc.servers[..i] + [info] == svc.servers[..i + 1];
      servers := servers[info.name := s];
    }
    assert svc.servers[..|svc.servers|] == svc.servers;
  }

  lemma NoServers(id: UUID, infos: seq<ServerInfo>)
    ensures Announces(id, infos[..0], map[])
  {
  }

  method DescribeApp(metadata: Metadata.Table, app: AppInfo)
    modifies metadata
    ensures Describes(old(metadata.entries), app, metadata.entries)
  {
    metadata.Set("AppName", app.appName);
    metadata.Set("version", app.version);
    metadata.Set("Commit", app.commit);
    metadata.Set("BuildTime", app.buildTime);
    metadata.Set("Branch", app.branch);
  }

  /** None is Go's panic: with nil metadata nothing is cloned, and Set writes to a nil map.
      The service's own metadata is not in any modifies clause, so it stays as it was. */
  method BuildInstance(svc: Service, app: AppInfo, manager: Option<Manager>) returns (x: Option<Instance>)
    ensures x.None? <==> svc.metadata == null
    ensures x.Some? ==> BuiltFrom(svc, svc.metadata.entries, app, manager, x.value)
  {
    var address, port := "", 0;
    if manager.Some? {
      address, port := manager.value.address, manager.value.port;
    }
    var servers := BuildServers(svc);
    if svc.metadata == null {
      return None;
    }
    var metadata := svc.metadata.Clone();
    DescribeApp(metadata, app);
    x := Some(Instance(svc.id, svc.name, svc.kind, "", port, address, [], metadata.entries,
                       0, 0, "", 0, servers, map[]));
  }

  /** No other agent entry claims the same service name and id. */
  ghost predicate Unclaimed(c: Consul.Codec, services: map<string, Consul.Registration>,
                            key: string, name: string, id: UUID) {
    forall k :: k in services && k != key ==> services[k].name != name || c.parseId(services[k].id) != Some(id)
  }

  /** A registered instance, loaded among arbitrary other entries in any order and purged
      into a pool, is what GetInstance returns. */
  lemma RegisteredIsFound(c: Consul.Codec, services: map<string, Consul.Registration>, key: string,
                          x: Instance, ins: seq<Instance>)
    requires Consul.Faithful(c)
    requires key in services && Consul.Encodes(c, x, services[key])
    requires Unclaimed(c, services, key, x.serviceName, x.id)
    requires Consul.LoadedFrom(c, services, ins)
    ensures var r := Lookup(Group(ins), x.serviceName, x.id);
            && r.Some? && Consul.Recovered(x, r.value)
            && (r.value.servers == x.servers <==> Consul.KeyedByName(x.servers))
  {
    var order :| Lists(order, Consul.Parseable(c, services)) && Consul.LoadedInOrder(c, services, order, ins);
    assert c.parseId(c.printId(x.id)) == Some(x.id);
    assert key in Consul.Parseable(c, services);
    var i :| 0 <= i < |order| && order[i] == key;
    var y := ins[i];
    Consul.RoundTrip(c, x, services[key], y);
    forall j | i < j < |ins| ensures KeyOf(ins[j]) != KeyOf(y) {
      assert order[j] in services && order[j] != key;
      assert Consul.Decodes(c, services[order[j]], ins[j]);
    }
    assert LastInList(ins, i);
    GroupSpec(ins);
  }

  /** Build, register, load, purge, look up: the service is found with the servers and the
      metadata it was built with. */
  method AnnounceAndFind(svc: Service, app: AppInfo, manager: Option<Manager>,
                         agent: Consul.Agent, registry: RegistryPool.Registry) returns (found: Option<Instance>)
    requires svc.metadata != null && Consul.Faithful(agent.codec)
    requires Unclaimed(agent.codec, agent.services, agent.codec.printId(svc.id), svc.name, svc.id)
    modifies agent, registry
    ensures svc.metadata.entries == old(svc.metadata.entries)
    ensures found.Some? && found.value.id == svc.id && found.value.serviceName == svc.name
    ensures Announces(svc.id, svc.servers, found.value.servers)
    ensures Describes(svc.metadata.entries, app, found.value.metadata)
    ensures found.value.managerAddress == (if manager.Some? then manager.value.address else "")
    ensures found.value.managerPort == (if manager.Some? then manager.value.port else 0)
  {
    hide Announces, Describes;
    var built := BuildInstance(svc, app, manager);
    var x := built.value;
    BuiltKeyedByName(svc, svc.metadata.entries, app, manager, x);
    var ok := agent.Register(x, true);
    var loaded := agent.Load(true);
    var ins := loaded.value;
    RegisteredIsFound(agent.codec, agent.services, agent.codec.printId(x.id), x, ins);
    registry.PurgePool(ins);
    found := registry.currentPool.GetInstance(svc.name, svc.id);
  }
}
