/** registry/pool.go: the process-wide pool of services and their instance maps.
    Services and instance maps are heap objects, because the pool hands out references
    to them (GetService, GetInstances) and swaps whole pools under readers' feet. */
module RegistryPool {
  import opened Instances
  import opened Grouping

  class InstanceTable {
    var entries: map<UUID, Instance>

    constructor ()
      ensures entries == map[]
    {
      entries := map[];
    }
  }

  class Service {
    const name: string
    var instances: InstanceTable?

    constructor (name: string, instances: InstanceTable?)
      ensures this.name == name && this.instances == instances
    {
      this.name := name;
      this.instances := instances;
    }
  }

  /** The services and the instance maps they refer to. */
  ghost function Footprint(services: set<Service>): set<object>
    reads services
  {
    (set s: Service | s in services :: s as object)
    + (set s: Service | s in services && s.instances != null :: s.instances as object)
  }

  class Pool {
    var services: map<string, Service>

    constructor ()
      ensures services == map[] && Grouped() && View() == map[]
    {
      services := map[];
    }

    /** What a reader sees: for every service name its instances by id. */
    ghost function View(): Groups
      reads this, services.Values, Footprint(services.Values)
    {
      map name | name in services ::
        if services[name].instances == null then map[] else services[name].instances.entries
    }

    /** Every service has an instance map of its own. */
    ghost predicate Separate()
      reads this, services.Values
    {
      && (forall a :: a in services ==> services[a].instances != null)
      && (forall a, b :: a in services && b in services && a != b ==>
            services[a] != services[b] && services[a].instances != services[b].instances)
    }

    method RegisterService(svc: Service)
      modifies this
      ensures services == old(services)[svc.name := svc]
    {
      services := services[svc.name := svc];
    }

    method GetService(name: string) returns (svc: Service?)
      ensures svc == if name in services then services[name] else null
    {
      svc := if name in services then services[name] else null;
    }

    method RegisterInstance(x: Instance)
      modifies if x.serviceName in services then {services[x.serviceName]} else {}
      modifies if x.serviceName in services && services[x.serviceName].instances != null
               then {services[x.serviceName].instances} else {}
      ensures x.serviceName in services ==>
                var s := services[x.serviceName];
                && s.instances != null
                && (if old(s.instances) == null then fresh(s.instances) else s.instances == old(s.instances))
                && s.instances.entries == old(if s.instances == null then map[] else s.instances.entries)[x.id := x]
    {
      if x.serviceName in services {
        var s := services[x.serviceName];
        if s.instances == null {
          s.instances := new InstanceTable();
        }
        s.instances.entries := s.instances.entries[x.id := x];
      }
    }

    /** Every service has an instance map of its own and is stored under its name. */
    ghost predicate Grouped()
      reads this, services.Values
    {
      Separate() && forall name :: name in services ==> services[name].name == name
    }

    twostate lemma NewServiceView(new svc: Service)
      requires services == old(services)[svc.name := svc] && svc.name !in old(services)
      requires svc.instances != null && svc.instances.entries == map[]
      requires forall n :: n in old(services) ==>
                 && old(services[n].instances) != null && services[n].instances == old(services[n].instances)
                 && services[n].instances.entries == old(services[n].instances.entries)
      ensures View() == old(View())[svc.name := map[]]
    {
    }

    twostate lemma SameView()
      requires services == old(services)
      requires forall n :: n in old(services) ==>
                 && old(services[n].instances) != null && services[n].instances == old(services[n].instances)
                 && services[n].instances.entries == old(services[n].instances.entries)
      ensures View() == old(View())
    {
    }

    /** The first half of a turn of PurgePool's loop. */
    method EnsureService(name: string)
      requires Grouped()
      modifies this
      ensures Grouped() && name in services
      ensures forall n :: n in services ==>
                if n in old(services) then services[n] == old(services)[n]
                else n == name && fresh(services[n]) && fresh(services[n].instances)
      ensures View() == if name in old(services) then old(View()) else old(View())[name := map[]]
    {
      hide View;
      var svc := GetService(name);
      if svc == null {
        var table := new InstanceTable();
        svc := new Service(name, table);
        RegisterService(svc);
        NewServiceView(svc);
      } else {
        SameView();
      }
    }

    /** The second half. */
    method AddInstance(x: Instance)
      requires Grouped() && x.serviceName in services
      modifies services[x.serviceName], services[x.serviceName].instances
      ensures Grouped()
      ensures services[x.serviceName].instances == old(services[x.serviceName].instances)
      ensures View() == Insert(old(View()), x)
    {
      ghost var before := View();
      ghost var group := before[x.serviceName];
      RegisterInstance(x);
      assert forall name :: name in services && name != x.serviceName ==>
          services[name].instances == old(services[name].instances)
          && services[name].instances.entries == old(services[name].instances.entries);
      assert View() == before[x.serviceName := group[x.id := x]];
    }

    method GetInstance(name: string, id: UUID) returns (x: Option<Instance>)
      ensures x == Lookup(View(), name, id)
    {
      if name !in services || services[name].instances == null {
        return None;
      }
      var entries := services[name].instances.entries;
      x := if id in entries then Some(entries[id]) else None;
    }

    method UnregisterInstance(name: string, id: UUID)
      modifies if name in services && services[name].instances != null then {services[name].instances} else {}
      ensures name in services && services[name].instances != null ==>
                services[name].instances.entries == old(services[name].instances.entries) - {id}
    {
      if name in services && services[name].instances != null {
        services[name].instances.entries := services[name].instances.entries - {id};
      }
    }

    /** Returns the map itself, not a copy. */
    method GetInstances(name: string) returns (table: InstanceTable?)
      ensures table == if name in services then services[name].instances else null
    {
      table := if name in services then services[name].instances else null;
    }
  }

  lemma InsertIntoEmpty(g: Groups, x: Instance)
    ensures x.serviceName !in g ==> Insert(g[x.serviceName := map[]], x) == Insert(g, x)
  {
  }

  lemma NoGroups(ins: seq<Instance>)
    ensures Group(ins[..0]) == map[]
  {
  }

  lemma NextGroup(ins: seq<Instance>, i: nat)
    requires i < |ins|
    ensures Group(ins[..i + 1]) == Insert(Group(ins[..i]), ins[i])
  {
    assert ins[..i + 1][..i] == ins[..i];
  }

  /** The loop of PurgePool: a new pool, filled in list order. */
  method GroupedPool(ins: seq<Instance>) returns (p: Pool)
    ensures fresh(p) && p.Grouped()
    ensures forall s :: s in p.services.Values ==> fresh(s) && fresh(s.instances)
    ensures p.View() == Group(ins)
  {
    hide Insert, Group;
    p := new Pool();
    NoGroups(ins);
    for i := 0 to |ins|
      invariant fresh(p) && p.Grouped()
      invariant forall s :: s in p.services.Values ==> fresh(s) && fresh(s.instances)
      invariant p.View() == Group(ins[..i])
    {
      NextGroup(ins, i);
      InsertIntoEmpty(p.View(), ins[i]);
      p.EnsureService(ins[i].serviceName);
      p.AddInstance(ins[i]);
    }
    assert ins[..|ins|] == ins;
  }

  /** A call of one of the package's helpers. */
  datatype Helper =
    | InitPool
    | RegisterInstance(x: Instance)
    | UnregisterInstance(service: string, id: UUID)
    | RegisterService(svc: Service)
    | PurgePool(ins: seq<Instance>)
    | GetInstances(name: string)

  ghost function Handed(calls: seq<Helper>): set<Service> {
    set c | c in calls && c.RegisterService? :: c.svc
  }

  /** The package state: `currentPool`. */
  class Registry {
    var currentPool: Pool?

    constructor ()
      ensures currentPool == null
    {
      currentPool := null;
    }

    ghost function Reach(): set<object>
      reads this, if currentPool == null then {} else {currentPool} + currentPool.services.Values
    {
      if currentPool == null then {} else {currentPool} + Footprint(currentPool.services.Values)
    }

    method InitPool()
      modifies this
      ensures currentPool != null && fresh(currentPool) && currentPool.services == map[] && currentPool.View() == map[]
    {
      currentPool := new Pool();
    }

    /** Swaps in a pool built from the list; nothing reachable before is touched. */
    method PurgePool(ins: seq<Instance>)
      modifies this
      ensures currentPool != null && fresh(currentPool) && currentPool.Grouped()
      ensures forall s :: s in currentPool.services.Values ==> fresh(s) && fresh(s.instances)
      ensures currentPool.View() == Group(ins)
    {
      var p := GroupedPool(ins);
      currentPool := p;
    }

    /** The instance map the pool has for a service. */
    ghost function TableOf(name: string): InstanceTable?
      reads this, if currentPool == null then {} else {currentPool} + currentPool.services.Values
    {
      if currentPool == null || name !in currentPool.services then null else currentPool.services[name].instances
    }

    /** The only existing instance map that a helper may change. */
    ghost function Target(c: Helper): InstanceTable?
      reads this, if currentPool == null then {} else {currentPool} + currentPool.services.Values
    {
      match c
      case RegisterInstance(x) => TableOf(x.serviceName)
      case UnregisterInstance(service, _) => TableOf(service)
      case _ => null
    }

    method RegisterInstance(x: Instance)
      modifies Reach()
      ensures currentPool == old(currentPool)
      ensures forall o :: o in Reach() ==> fresh(o) || o in old(Reach())
      ensures forall s: Service :: old(allocated(s)) ==>
                s.instances == old(s.instances) || (s.instances != null && fresh(s.instances))
      ensures forall t: InstanceTable :: old(allocated(t)) && t != old(TableOf(x.serviceName)) ==>
                t.entries == old(t.entries)
      ensures currentPool != null ==>
                && currentPool.services == old(currentPool.services)
                && (x.serviceName in currentPool.services ==>
                      var table := currentPool.services[x.serviceName].instances;
                      && table != null
                      && (old(TableOf(x.serviceName)) != null ==>
                            table == old(TableOf(x.serviceName)) && table.entries == old(table.entries)[x.id := x])
                      && (old(TableOf(x.serviceName)) == null ==> fresh(table) && table.entries == map[x.id := x]))
    {
      if currentPool != null {
        if x.serviceName in currentPool.services {
          assert currentPool.services[x.serviceName] in currentPool.services.Values;
        }
        currentPool.RegisterInstance(x);
      }
    }

    method RegisterService(svc: Service)
      modifies currentPool
      ensures currentPool == old(currentPool)
      ensures currentPool != null ==> currentPool.services == old(currentPool.services)[svc.name := svc]
      ensures forall o :: o in Reach() ==> o in old(Reach()) || o in Footprint({svc})
    {
      if currentPool != null {
        currentPool.RegisterService(svc);
      }
    }

    /** One helper call: it writes only to the current pool, its services and their maps. */
    method Call(c: Helper)
      modifies this, Reach()
      ensures forall o :: o in Reach() ==> fresh(o) || o in old(Reach()) || o in old(Footprint(Handed([c])))
      ensures forall s: Service :: old(allocated(s)) ==>
                s.instances == old(s.instances) || (s.instances != null && fresh(s.instances))
      ensures !c.PurgePool? && !c.InitPool? ==> currentPool == old(currentPool)
      ensures forall t: InstanceTable :: old(allocated(t)) && t != old(Target(c)) ==> t.entries == old(t.entries)
      ensures match c
              case InitPool => currentPool != null && currentPool.View() == map[]
              case PurgePool(ins) => currentPool != null && currentPool.View() == Group(ins)
              case RegisterInstance(x) =>
                currentPool != null ==>
                  && currentPool.services == old(currentPool.services)
                  && (x.serviceName in currentPool.services ==>
                        var table := currentPool.services[x.serviceName].instances;
                        && table != null
                        && (old(TableOf(x.serviceName)) != null ==>
                              table == old(TableOf(x.serviceName)) && table.entries == old(table.entries)[x.id := x])
                        && (old(TableOf(x.serviceName)) == null ==> fresh(table) && table.entries == map[x.id := x]))
              case UnregisterInstance(service, id) =>
                currentPool != null ==>
                  && currentPool.services == old(currentPool.services)
                  && TableOf(service) == old(TableOf(service))
                  && (TableOf(service) != null ==> TableOf(service).entries == old(TableOf(service).entries) - {id})
              case RegisterService(svc) =>
                old(currentPool) != null ==> currentPool.services == old(currentPool.services)[svc.name := svc]
              case GetInstances(_) => true
    {
      hide Pool.View, Pool.Grouped, Pool.Separate, Group, Lookup;
      match c
      case InitPool =>
        InitPool();
      case PurgePool(ins) =>
        PurgePool(ins);
      case RegisterInstance(x) =>
        RegisterInstance(x);
      case UnregisterInstance(service, id) =>
        if currentPool != null {
          if service in currentPool.services {
            assert currentPool.services[service] in currentPool.services.Values;
          }
          currentPool.UnregisterInstance(service, id);
        }
      case RegisterService(svc) =>
        RegisterService(svc);
        assert svc in Handed([c]) by {
          assert c in [c];
        }
      case GetInstances(name) =>
        if currentPool != null { var _ := currentPool.GetInstances(name); }
    }

    /** Any sequence of helper calls writes only to what is reachable from the current pool
        or from a Service object it is handed. */
    method Calls(calls: seq<Helper>)
      modifies this, Reach(), Footprint(Handed(calls))
      ensures forall o :: o in Reach() ==> fresh(o) || o in old(Reach()) || o in old(Footprint(Handed(calls)))
    {
      for i := 0 to |calls|
        invariant forall o :: o in Reach() ==> fresh(o) || o in old(Reach()) || o in old(Footprint(Handed(calls)))
        invariant forall o :: o in Footprint(Handed(calls)) ==>
                    fresh(o) || o in old(Reach()) || o in old(Footprint(Handed(calls)))
      {
        assert Handed([calls[i]]) <= Handed(calls) by {
          assert forall c :: c in [calls[i]] ==> c in calls;
        }
        Call(calls[i]);
      }
    }

    /** A map obtained from GetInstances before a PurgePool is never changed afterwards, by any
        sequence of helper calls, unless RegisterService is handed a Service using one of the
        maps of the pool that was replaced. */
    method RetiredSnapshot(service: string, ins: seq<Instance>, calls: seq<Helper>) returns (table: InstanceTable?)
      requires currentPool != null
      requires forall s, t :: s in Handed(calls) && t in currentPool.services.Values && t.instances != null ==>
                 s.instances != t.instances
      modifies this, Footprint(Handed(calls))
      ensures table == old(if service in currentPool.services then currentPool.services[service].instances else null)
      ensures table != null ==> table.entries == old(table.entries)
    {
      hide Pool.View, Pool.Grouped, Pool.Separate, Group;
      table := currentPool.GetInstances(service);
      PurgePool(ins);
      Calls(calls);
    }

    /** The proviso is needed: handing back any Service that uses a non-empty retired map
        lets a helper call change that map. */
    method ReopenedSnapshot(svc: Service, ins: seq<Instance>) returns (id: UUID)
      requires currentPool != null && svc.name in currentPool.services && currentPool.services[svc.name] == svc
      requires svc.instances != null && svc.instances.entries != map[]
      modifies this, svc.instances
      ensures svc.instances.entries != old(svc.instances.entries)
    {
      ghost var before := svc.instances.entries;
      assert before.Keys != {};
      id :| id in svc.instances.entries.Keys;
      PurgePool(ins);
      currentPool.RegisterService(svc);
      currentPool.UnregisterInstance(svc.name, id);
      assert id in before && id !in svc.instances.entries;
    }
  }
}
