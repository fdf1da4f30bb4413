/** sicky.go: what Init requires, and what Run does to the services and the registry.

    The process environment decides which calls fail; Fatal ends the process on the spot. */
module Lifecycle {
  import opened Instances
  import opened Listings
  import opened Stores
  import Metadata

  datatype Event = Start(id: UUID) | Register(id: UUID) | Deregister(id: UUID) | Stop(id: UUID)

  /** How far Run had come: no service started yet, all are up, or all are down again. */
  datatype Phase = Before | Up | Down

  /** How Run ends. `Panic` and `Fatal` end the process. */
  datatype Exit = Returned | StartError(id: UUID) | Panic(id: UUID) | StopError(id: UUID) | Fatal(phase: Phase)

  /** Which calls fail. `writeFails` and `deleteFails` are the ids whose registry entry is
      not written or deleted; whether the registry reports that makes no difference to Run.
      `noMetadata` are the services with nil metadata, whose instance cannot be built.
      `aborts` is any other fatal condition before the services start (a wrapper, the
      registry, a broker, a flag callback), `diesUp` a wrapper that fails while they run,
      `diesDown` one that fails after they were stopped. */
  datatype Environment = Environment(
    infraFails: set<string>, startFails: set<UUID>, stopFails: set<UUID>, noMetadata: set<UUID>,
    writeFails: set<UUID>, deleteFails: set<UUID>, aborts: bool, diesUp: bool, diesDown: bool)

  const KNOWN: seq<string> :=
    ["badger", "bun", "clickhouse", "elastic", "mqtt", "mongo", "nats", "redis", "ristretto", "s3"]

  /** The ten infra kinds that can be required. */
  lemma KnownNames(name: string)
    ensures name in KNOWN <==>
            || name == "badger" || name == "bun" || name == "clickhouse" || name == "elastic" || name == "mqtt"
            || name == "mongo" || name == "nats" || name == "redis" || name == "ristretto" || name == "s3"
    ensures Distinct(KNOWN)
  {
    assert KNOWN[0] == "badger" && KNOWN[1] == "bun";
  }

  /** The events of one service. */
  function Of(trace: seq<Event>, id: UUID): seq<Event> {
    if trace == [] then []
    else
      var e := trace[|trace| - 1];
      Of(trace[..|trace| - 1], id) + if e.id == id then [e] else []
  }

  function Begun(order: seq<UUID>): seq<Event> {
    if order == [] then []
    else
      var id := order[|order| - 1];
      Begun(order[..|order| - 1]) + [Start(id), Register(id)]
  }

  function Ended(order: seq<UUID>): seq<Event> {
    if order == [] then []
    else
      var id := order[|order| - 1];
      Ended(order[..|order| - 1]) + [Deregister(id), Stop(id)]
  }

  /** The store after the ids in `put` were registered and then those in `del` deregistered. */
  function After(store: Store, services: Store, put: set<UUID>, del: set<UUID>): Store
    requires put <= services.Keys
  {
    map id | id in store.Keys + put && id !in del :: if id in put then services[id] else store[id]
  }

  lemma {:induction false} OfConcat(a: seq<Event>, b: seq<Event>, id: UUID)
    ensures Of(a + b, id) == Of(a, id) + Of(b, id)
  {
    if b == [] {
      assert a + b == a;
    } else {
      assert (a + b)[..|a + b| - 1] == a + b[..|b| - 1];
      OfConcat(a, b[..|b| - 1], id);
    }
  }

  lemma {:induction false} OfPair(a: Event, b: Event, id: UUID)
    requires a.id == b.id
    ensures Of([a, b], id) == if a.id == id then [a, b] else []
  {
    assert [a, b][..1] == [a] && [a][..0] == [];
    assert Of([a], id) == if a.id == id then [a] else [];
  }

  /** Two more events of one service. */
  lemma {:induction false} OfTwoMore(trace: seq<Event>, a: Event, b: Event, id: UUID)
    requires a.id == b.id
    ensures Of(trace + [a, b], id) == if a.id == id then Of(trace, id) + [a, b] else Of(trace, id)
  {
    OfConcat(trace, [a, b], id);
    OfPair(a, b, id);
    hide Of;
  }

  lemma NoneOf(id: UUID)
    ensures Of(Begun([]), id) == Of(Ended([]), id) == []
  {
  }

  lemma {:induction false} OfBegun(order: seq<UUID>, id: UUID)
    requires Distinct(order)
    ensures Of(Begun(order), id) == if id in order then [Start(id), Register(id)] else []
  {
    hide Of, Begun, Ended;
    NoneOf(id);
    if order != [] {
      var n := |order| - 1;
      BegunNext(order, n);
      assert order[..n + 1] == order;
      OfBegun(order[..n], id);
      OfTwoMore(Begun(order[..n]), Start(order[n]), Register(order[n]), id);
      assert id in order <==> id in order[..n] || id == order[n];
      assert order[n] !in order[..n];
    }
  }

  lemma {:induction false} OfEnded(order: seq<UUID>, id: UUID)
    requires Distinct(order)
    ensures Of(Ended(order), id) == if id in order then [Deregister(id), Stop(id)] else []
  {
    hide Of, Begun, Ended;
    NoneOf(id);
    if order != [] {
      var n := |order| - 1;
      EndedNext(order, n);
      assert order[..n + 1] == order;
      OfEnded(order[..n], id);
      OfTwoMore(Ended(order[..n]), Deregister(order[n]), Stop(order[n]), id);
      assert id in order <==> id in order[..n] || id == order[n];
      assert order[n] !in order[..n];
    }
  }

  function OnStore(store: Store, services: Store, env: Environment, e: Event): Store {
    match e
    case Register(id) => if id in services && id !in env.writeFails then store[id := services[id]] else store
    case Deregister(id) => if id !in env.deleteFails then store - {id} else store
    case _ => store
  }

  /** What a trace of registry calls makes of the store. */
  function Replay(store: Store, services: Store, env: Environment, trace: seq<Event>): Store {
    if trace == [] then store
    else
      OnStore(Replay(store, services, env, trace[..|trace| - 1]), services, env, trace[|trace| - 1])
  }

  lemma NothingYet(store: Store, services: Store, env: Environment, order: seq<UUID>)
    ensures Begun(order[..0]) == Ended(order[..0]) == []
    ensures Replay(store, services, env, []) == store
  {
  }

  lemma NothingAtAll(store: Store, services: Store, env: Environment)
    ensures Replay(store, services, env, []) == store
    ensures forall id :: Of([], id) == []
    ensures forall id :: Fate(services, Fatal(Before), [], id)
  {
  }

  lemma {:induction false} ReplayOne(store: Store, services: Store, env: Environment, t: seq<Event>, a: Event)
    ensures Replay(store, services, env, t + [a]) == OnStore(Replay(store, services, env, t), services, env, a)
  {
    assert (t + [a])[..|t|] == t;
  }

  lemma {:induction false} ReplayConcat(store: Store, services: Store, env: Environment, a: seq<Event>, b: seq<Event>)
    ensures Replay(store, services, env, a + b) == Replay(Replay(store, services, env, a), services, env, b)
  {
    if b == [] {
      assert a + b == a;
    } else {
      assert (a + b)[..|a + b| - 1] == a + b[..|b| - 1];
      ReplayConcat(store, services, env, a, b[..|b| - 1]);
    }
  }

  lemma {:induction false} ReplayPair(store: Store, services: Store, env: Environment,
                                      t: seq<Event>, a: Event, b: Event)
    ensures Replay(store, services, env, t + [a, b]) ==
            OnStore(OnStore(Replay(store, services, env, t), services, env, a), services, env, b)
  {
    assert (t + [a, b])[..|t| + 1] == t + [a] && (t + [a])[..|t|] == t;
  }

  lemma {:induction false} AfterNext(store: Store, services: Store, put: set<UUID>, not: set<UUID>, id: UUID)
    requires put <= services.Keys && id in services
    ensures After(store, services, put + {id} - not, {}) ==
            if id in not then After(store, services, put - not, {})
            else After(store, services, put - not, {})[id := services[id]]
  {
    assert id in not ==> put + {id} - not == put - not;
    assert id !in not ==> put + {id} - not == (put - not) + {id};
  }

  lemma {:induction false} ReplayBegun(store: Store, services: Store, env: Environment, order: seq<UUID>)
    requires forall id :: id in order ==> id in services
    ensures Replay(store, services, env, Begun(order)) == After(store, services, Elements(order) - env.writeFails, {})
  {
    if order != [] {
      var init, last := order[..|order| - 1], order[|order| - 1];
      ReplayBegun(store, services, env, init);
      ReplayPair(store, services, env, Begun(init), Start(last), Register(last));
      assert Elements(order) == Elements(init) + {last} by {
        assert order == init + [last];
      }
      AfterNext(store, services, Elements(init), env.writeFails, last);
    }
  }

  lemma {:induction false} ReplayEnded(store: Store, services: Store, env: Environment, order: seq<UUID>)
    ensures Replay(store, services, env, Ended(order)) == store - (Elements(order) - env.deleteFails)
  {
    if order != [] {
      var init, last := order[..|order| - 1], order[|order| - 1];
      ReplayEnded(store, services, env, init);
      ReplayPair(store, services, env, Ended(init), Deregister(last), Stop(last));
      assert order == init + [last];
    }
  }

  function Elements(order: seq<UUID>): set<UUID> {
    set id | id in order
  }

  lemma FullReplay(store: Store, services: Store, env: Environment, order: seq<UUID>, order': seq<UUID>)
    requires Lists(order, services.Keys) && Lists(order', services.Keys)
    ensures Replay(store, services, env, Begun(order) + Ended(order')) ==
            After(store, services, services.Keys - env.writeFails, services.Keys - env.deleteFails)
  {
    ReplayConcat(store, services, env, Begun(order), Ended(order'));
    ReplayBegun(store, services, env, order);
    ReplayEnded(After(store, services, Elements(order) - env.writeFails, {}), services, env, order');
    assert Elements(order) == services.Keys == Elements(order');
  }

  /** Deleting every service's entry, or leaving one that equals the old one, and nothing
      else restores the store; in particular successful calls for ids previously absent. */
  predicate Restores(store: Store, services: Store, env: Environment) {
    forall id :: id in services ==>
      if id !in env.deleteFails then id !in store
      else id !in env.writeFails ==> id in store && store[id] == services[id]
  }

  lemma RestoredIff(store: Store, services: Store, env: Environment)
    ensures After(store, services, services.Keys - env.writeFails, services.Keys - env.deleteFails) == store <==>
            Restores(store, services, env)
  {
    var after := After(store, services, services.Keys - env.writeFails, services.Keys - env.deleteFails);
    if after == store {
      forall id | id in services
        ensures if id !in env.deleteFails then id !in store
                else id !in env.writeFails ==> id in store && store[id] == services[id]
      {
        assert id in after <==> id in store;
      }
    }
  }

  /** What happens to one service. When one fails to start or to stop, or panics, the others
      are done with, left running and registered, or were never begun. */
  predicate Fate(services: Store, exit: Exit, events: seq<Event>, id: UUID) {
    var up := [Start(id), Register(id)];
    var all := [Start(id), Register(id), Deregister(id), Stop(id)];
    if id !in services then events == []
    else
      match exit
      case Returned => events == all
      case StartError(x) => if id == x then events == [Start(id), Stop(id)] else events == [] || events == up
      case Panic(x) => if id == x then events == [Start(id)] else events == [] || events == up
      case StopError(x) => if id == x then events == all else events == up || events == all
      case Fatal(Before) => events == []
      case Fatal(Up) => events == up
      case Fatal(Down) => events == all
  }

  predicate ComesUp(env: Environment, id: UUID) {
    id !in env.startFails && id !in env.noMetadata
  }

  predicate StartsUntil(env: Environment, order: seq<UUID>, n: nat) {
    && n <= |order| && (forall i :: 0 <= i < n ==> ComesUp(env, order[i]))
    && (n < |order| ==> !ComesUp(env, order[n]))
  }

  /** What becomes of a service that does not come up: it is stopped again if Start failed. */
  function LastGasp(env: Environment, id: UUID): seq<Event> {
    if id in env.startFails then [Start(id), Stop(id)] else [Start(id)]
  }

  function StartExit(env: Environment, order: seq<UUID>, n: nat): Exit
    requires n <= |order|
  {
    if n == |order| then Returned
    else if order[n] in env.startFails then StartError(order[n])
    else Panic(order[n])
  }

  predicate StopsUntil(env: Environment, order: seq<UUID>, n: nat) {
    && n <= |order| && (forall i :: 0 <= i < n ==> order[i] !in env.stopFails)
    && (n < |order| ==> order[n] in env.stopFails)
  }

  function Launched(env: Environment, order: seq<UUID>, n: nat): seq<Event>
    requires n <= |order|
  {
    Begun(order[..n]) + if n < |order| then LastGasp(env, order[n]) else []
  }

  /** How many services the stop loop visits when n of them stop without error. */
  function Reached(order: seq<UUID>, n: nat): (r: nat)
    requires n <= |order|
    ensures n <= r <= |order|
  {
    if n < |order| then n + 1 else n
  }

  lemma BegunNext(order: seq<UUID>, i: nat)
    requires i < |order|
    ensures Begun(order[..i + 1]) == Begun(order[..i]) + [Start(order[i]), Register(order[i])]
  {
    assert order[..i + 1][..i] == order[..i];
  }

  lemma EndedNext(order: seq<UUID>, i: nat)
    requires i < |order|
    ensures Ended(order[..i + 1]) == Ended(order[..i]) + [Deregister(order[i]), Stop(order[i])]
  {
    assert order[..i + 1][..i] == order[..i];
  }

  lemma {:induction false} OfLastGasp(env: Environment, x: UUID, id: UUID)
    ensures Of(LastGasp(env, x), id) == if x == id then LastGasp(env, x) else []
  {
    if x in env.startFails {
      OfPair(Start(x), Stop(x), id);
    } else {
      assert [Start(x)][..0] == [];
    }
  }

  lemma {:induction false} LaunchedFate(services: Store, env: Environment, order: seq<UUID>, n: nat)
    requires Lists(order, services.Keys) && StartsUntil(env, order, n)
    ensures var exit := if n == |order| then Fatal(Up) else StartExit(env, order, n);
            forall id :: Fate(services, exit, Of(Launched(env, order, n), id), id)
  {
    hide Of, Begun;
    var exit := if n == |order| then Fatal(Up) else StartExit(env, order, n);
    forall id ensures Fate(services, exit, Of(Launched(env, order, n), id), id) {
      OfBegun(order[..n], id);
      if n == |order| {
        assert order[..n] == order && Launched(env, order, n) == Begun(order);
      } else {
        OfConcat(Begun(order[..n]), LastGasp(env, order[n]), id);
        OfLastGasp(env, order[n], id);
      }
    }
  }

  lemma {:induction false} OfWhole(order: seq<UUID>, stopped: seq<UUID>, id: UUID)
    requires Distinct(order) && Distinct(stopped)
    ensures Of(Begun(order) + Ended(stopped), id) ==
            (if id in order then [Start(id), Register(id)] else []) +
            if id in stopped then [Deregister(id), Stop(id)] else []
  {
    hide Of, Begun, Ended;
    OfBegun(order, id);
    OfEnded(stopped, id);
    OfConcat(Begun(order), Ended(stopped), id);
  }

  function StopExit(order: seq<UUID>, n: nat): Exit
    requires n <= |order|
  {
    if n == |order| then Returned else StopError(order[n])
  }

  lemma {:induction false} EndedFate(services: Store, env: Environment, order: seq<UUID>, order': seq<UUID>, n: nat)
    requires Lists(order, services.Keys) && Lists(order', services.Keys) && StopsUntil(env, order', n)
    ensures var events := Begun(order) + Ended(order'[..Reached(order', n)]);
            forall id ::
              && Fate(services, StopExit(order', n), Of(events, id), id)
              && (n == |order'| ==> Fate(services, Fatal(Down), Of(events, id), id))
  {
    hide Of, Begun, Ended;
    var stopped := order'[..Reached(order', n)];
    var events := Begun(order) + Ended(stopped);
    forall id
      ensures Fate(services, StopExit(order', n), Of(events, id), id)
      ensures n == |order'| ==> Fate(services, Fatal(Down), Of(events, id), id)
    {
      OfWhole(order, stopped, id);
      if n < |order'| {
        assert order'[n] in stopped;
      } else {
        assert stopped == order';
      }
    }
  }

  class App {
    var mustInfra: map<string, bool>
    var store: Store
    var trace: seq<Event>

    constructor (store: Store)
      ensures mustInfra == map[] && this.store == store && trace == []
    {
      mustInfra, this.store, trace := map[], store, [];
    }

    predicate Must(name: string)
      reads this
    {
      name in mustInfra && mustInfra[name]
    }

    /** The name is among the required ones, up to white space around it. */
    static predicate Asked(required: seq<string>, name: string) {
      exists s :: s in required && Metadata.TrimSpace(s) == name
    }

    /** Init's filter: required names are trimmed, and unknown ones are ignored. */
    method Init(required: seq<string>)
      modifies this`mustInfra
      ensures forall name :: Must(name) <==>
                old(Must(name)) || (name in KNOWN && Asked(required, name))
    {
      for i := 0 to |required|
        invariant forall name :: Must(name) <==>
                    old(Must(name)) || (name in KNOWN && Asked(required[..i], name))
      {
        assert required[..i + 1] == required[..i] + [required[i]];
        var name := Metadata.TrimSpace(required[i]);
        if name in KNOWN {
          mustInfra := mustInfra[name := true];
        }
      }
    }

    /** The blocks of Run that initialise what is configured; false means one failed. */
    method Initialise(known: seq<string>, configured: set<string>, infraFails: set<string>) returns (ok: bool)
      modifies this`mustInfra
      ensures ok <==> forall name :: name in known && name in configured ==> name !in infraFails
      ensures ok ==> forall name :: Must(name) <==> old(Must(name)) && !(name in known && name in configured)
    {
      for i := 0 to |known|
        invariant forall name :: name in known[..i] && name in configured ==> name !in infraFails
        invariant forall name :: Must(name) <==> old(Must(name)) && !(name in known[..i] && name in configured)
      {
        var name := known[i];
        if name in configured {
          if name in infraFails {
            return false;
          }
          if name in mustInfra && mustInfra[name] {
            mustInfra := mustInfra[name := false];
          }
        }
      }
      assert known[..|known|] == known;
      ok := true;
    }

    /** The check that follows them: nothing that must be there is missing. */
    method NothingMissing() returns (ok: bool)
      ensures ok <==> forall name :: !Must(name)
    {
      var names := AnyOrder(mustInfra.Keys);
      for i := 0 to |names|
        invariant forall j :: 0 <= j < i ==> !mustInfra[names[j]]
      {
        if mustInfra[names[i]] {
          assert Must(names[i]);
          return false;
        }
      }
      ok := true;
    }

    /** The infra part of Run: false means Fatal. */
    method CheckInfra(configured: set<string>, infraFails: set<string>) returns (ok: bool)
      modifies this`mustInfra
      ensures ok == old(InfraReady(configured, infraFails))
    {
      ok := Initialise(KNOWN, configured, infraFails);
      if ok {
        ok := NothingMissing();
        assert forall name :: old(Must(name)) && !(name in KNOWN && name in configured) ==> Must(name);
      }
    }

    /** The start loop. `order` is the order it visits the services in; the first n start. */
    method StartServices(services: Store, env: Environment, order: seq<UUID>) returns (exit: Exit, ghost n: nat)
      requires Lists(order, services.Keys) && OwnKeys(services)
      modifies this`store, this`trace
      ensures StartsUntil(env, order, n) && exit == StartExit(env, order, n)
      ensures trace == old(trace) + Launched(env, order, n)
      ensures store == Replay(old(store), services, env, Launched(env, order, n))
    {
      hide Replay, Begun;
      n := 0;
      NothingYet(store, services, env, order);
      for i := 0 to |order|
        invariant n == i && forall j :: 0 <= j < i ==> ComesUp(env, order[j])
        invariant trace == old(trace) + Begun(order[..i])
        invariant store == Replay(old(store), services, env, Begun(order[..i]))
      {
        var id := order[i];
        BegunNext(order, i);
        ReplayPair(old(store), services, env, Begun(order[..i]), Start(id), Stop(id));
        ReplayPair(old(store), services, env, Begun(order[..i]), Start(id), Register(id));
        ReplayOne(old(store), services, env, Begun(order[..i]), Start(id));
        trace := trace + [Start(id)];
        if id in env.startFails {
          trace := trace + [Stop(id)];
          assert Launched(env, order, n) == Begun(order[..i]) + [Start(id), Stop(id)];
          return StartError(id), n;
        }
        if id in env.noMetadata {
          assert Launched(env, order, n) == Begun(order[..i]) + [Start(id)];
          return Panic(id), n;
        }
        trace := trace + [Register(id)];
        if id !in env.writeFails {
          store := store[services[id].id := services[id]];
        }
        n := n + 1;
      }
      assert Launched(env, order, n) == Begun(order[..n]);
      exit := Returned;
    }

    /** The stop loop; it visits the services in an order of its own and stops at the first
        failure, after n services. */
    method StopServices(services: Store, env: Environment, order: seq<UUID>) returns (exit: Exit, ghost n: nat)
      requires Lists(order, services.Keys)
      modifies this`store, this`trace
      ensures StopsUntil(env, order, n) && exit == StopExit(order, n)
      ensures trace == old(trace) + Ended(order[..Reached(order, n)])
      ensures store == Replay(old(store), services, env, Ended(order[..Reached(order, n)]))
    {
      hide Replay, Ended;
      n := 0;
      NothingYet(store, services, env, order);
      for i := 0 to |order|
        invariant n == i && forall j :: 0 <= j < i ==> order[j] !in env.stopFails
        invariant trace == old(trace) + Ended(order[..i])
        invariant store == Replay(old(store), services, env, Ended(order[..i]))
      {
        var id := order[i];
        EndedNext(order, i);
        ReplayPair(old(store), services, env, Ended(order[..i]), Deregister(id), Stop(id));
        trace := trace + [Deregister(id)];
        if id !in env.deleteFails {
          store := store - {id};
        }
        trace := trace + [Stop(id)];
        if id in env.stopFails {
          return StopError(id), n;
        }
        n := n + 1;
      }
      exit := Returned;
    }

    /** Run, from the infra check to the stop loop. Every service has its fate, whatever the
        two visiting orders; the store is what the trace says; nothing starts before every
        required infra is known to be configured and working. */
    method Run(services: Store, configured: set<string>, env: Environment)
      returns (exit: Exit, ghost events: seq<Event>)
      requires OwnKeys(services)
      modifies this
      ensures trace == old(trace) + events && store == Replay(old(store), services, env, events)
      ensures forall id :: Fate(services, exit, Of(events, id), id)
      ensures exit == Fatal(Before) <==> !old(InfraReady(configured, env.infraFails)) || env.aborts
      ensures exit == Fatal(Before) ==> events == []
      ensures exit == Returned <==>
                && old(InfraReady(configured, env.infraFails)) && !env.aborts && !env.diesUp && !env.diesDown
                && services.Keys !! env.startFails && services.Keys !! env.noMetadata
                && services.Keys !! env.stopFails
      ensures exit.StartError? ==> exit.id in services && exit.id in env.startFails
      ensures exit.Panic? ==> exit.id in services && exit.id in env.noMetadata && exit.id !in env.startFails
      ensures exit.StopError? ==> exit.id in services && exit.id in env.stopFails
      ensures exit == Returned ==> (store == old(store) <==> Restores(old(store), services, env))
    {
      hide Replay, After, Of, Fate, Begun, Ended, Restores, InfraReady;
      events := [];
      var ok := CheckInfra(configured, env.infraFails);
      if !ok || env.aborts {
        NothingAtAll(store, services, env);
        return Fatal(Before), [];
      }
      var order := AnyOrder(services.Keys);
      ghost var n;
      exit, n := StartServices(services, env, order);
      events := Launched(env, order, n);
      LaunchedFate(services, env, order, n);
      if exit != Returned {
        return;
      }
      if env.diesUp {
        return Fatal(Up), events;
      }
      assert order[..n] == order && Launched(env, order, n) == Begun(order);
      var order' := AnyOrder(services.Keys);
      exit, n := StopServices(services, env, order');
      ghost var tail := Ended(order'[..Reached(order', n)]);
      ReplayConcat(old(store), services, env, events, tail);
      EndedFate(services, env, order, order', n);
      events := events + tail;
      if exit == Returned && env.diesDown {
        exit := Fatal(Down);
      } else if exit == Returned {
        assert order'[..n] == order';
        FullReplay(old(store), services, env, order, order');
        RestoredIff(old(store), services, env);
      }
    }

    /** Init and Run together: no service starts unless every required name that is known,
        once trimmed, is configured. */
    method Launch(required: seq<string>, services: Store, configured: set<string>, env: Environment)
      returns (exit: Exit, ghost events: seq<Event>)
      requires OwnKeys(services)
      modifies this
      ensures trace == old(trace) + events
      ensures events != [] ==> forall i :: 0 <= i < |required| && Metadata.TrimSpace(required[i]) in KNOWN ==>
                Metadata.TrimSpace(required[i]) in configured
    {
      Init(required);
      exit, events := Run(services, configured, env);
    }

    ghost predicate InfraReady(configured: set<string>, infraFails: set<string>)
      reads this
    {
      && (forall name :: name in KNOWN && name in configured ==> name !in infraFails)
      && (forall name :: Must(name) ==> name in KNOWN && name in configured)
    }
  }
}
