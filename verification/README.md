# Sicky in Dafny

Sicky is a Go framework for services that find each other through a registry, talk over brokers and
sockets, and run tasks and timed jobs. This project models its stateful parts and proves what they keep
over every run. `dafny verify dfyconfig.toml` checks all of it.

Go visits the keys of a map in an unspecified order, so every `range` over a map is a loop over an
arbitrary listing of its keys (`Listings`), and whatever is proved holds for every order. Libraries that
are not part of the repository enter as parameters: JSON and UUID text as a `Codec` whose decoder inverts
its encoder, sockets and the NATS client by the few facts named below, clocks and failures as arguments.

| file | models |
|---|---|
| `Grouping`, `Stores`, `RegistryPool` | the pool of service instances, as values and as the heap objects the code shares |
| `Discovery`, `RedisRegistry` | many nodes over one Redis hash: write, publish, consume, load, swap |
| `ConsulCodec`, `Decimals` | an instance written to and read from a Consul registration |
| `Metadata`, `LastWrite` | metadata maps and their textual form |
| `EndToEnd` | a service built into an instance, registered, loaded, purged and looked up |
| `WebsocketPool`, `WebsocketOperators` | sessions behind three indexes, and the operators that own them |
| `StaticRunner` | workers over one channel, and its capacity and worker count |
| `TickerJob` | tasks that fire on the multiples of their interval |
| `NatsBroker` | library subscriptions across connections |
| `TcpReadLoop` | what handlers of a connection are told, with which bytes |
| `Lifecycle` | Init, and Run from the infra check to the last service |

## Where a promise has a condition

The code does not meet the plain promise in these places. Each has the exact condition under which it does,
proved in both directions, or the exact step that breaks it.

- The purge ticker can undo a write. Loads are not ordered with swaps, so a ticker that loaded before a write may
  install its list after the watcher installed the newer one, and no one corrects it. Exactly this loses convergence:
  the watchers, left alone at any moment of a run, can come to rest and end converged if and only if the run contains
  no such install
  (`Discovery.ConvergenceIff`), and every change of the store on every node of any system can be undone so
  (`Discovery.TickerUndoesWrite`). Watchers alone always converge.
- A process that joins loads nothing until its first notification: without a ticker, whenever the system comes to rest,
  it is current if and only if something was published since it joined or the store is empty, whatever the run
  (`Discovery.JoinerIsCurrentIff`), and all processes are current if and only if all were told or there is nothing to
  tell (`Discovery.AllCurrentIff`).
- `SetKey("")` on a pooled session indexes it under the empty key, the code's own "no key" marker: the
  indexes stay sound if and only if the new key is not empty (`WebsocketPool.Session.SetKey`). While no session was
  given a key that another pooled session holds, the pool is a plain set of sessions, and the first such takeover is
  exactly what makes lookup by key incomplete (`WebsocketOperators.Hub.Step`, `WebsocketOperators.Run`).
- `Pool.Put` of a session whose id or connection another session holds leaves that one dangling: the indexes stay sound
  if and only if the session was pooled here already or neither was in use.
- Consul stores servers by value only: they come back under their old keys if and only if each was keyed by its
  server's name. Instances built by `sicky.go` always are.
- `serviceToRegistryInstance` panics exactly for a service with nil metadata. `service/options.go` fills it for the
  framework's own services, so this concerns custom services only.
- `MetadataFromStrings` inverts `Strings` if and only if no key or value holds `=` or outer white space, and its result is
  independent of the order of the lines if and only if no two separator-free entries with different values collide
  once trimmed.
- A static runner whose workers are scheduled only after `Stop` loses the tasks in its buffer: every task submitted
  before `Stop` is handled exactly as often as it was submitted if and only if none was, or some worker got to the
  channel before `Stop`.
- A ticker task is called at exactly the multiples of its interval if and only if at most 2^64 ticks were delivered or
  the interval divides 2^64; an interval of 0 ends the process.
- A NATS handler's topic is subscribed by `Connect` if and only if it has no entry left over; an entry left by a direct
  `Subscribe` outlives its connection (`NatsBroker.StaleEntry`).
- Redis `Register` hides a failed publish while `Deregister` reports it, though both have changed the hash.

## Model

| member | source | states |
|---|---|---|
| Grouping.GroupSpec | registry/pool.go:280-297 | the purged pool is "group by service name, last instance per id wins": keys match the stored names and ids, no service is empty, nothing else is present |
| Grouping.GroupingUnique | registry/pool.go:280-297 | that specification determines the pool |
| Grouping.ListedIsPresent | registry/pool.go:280-297 | every (name, id) of the list is in the pool |
| Grouping.OrderIrrelevantIff | registry/pool.go:280-297 | reordering the list never matters if and only if no two different instances share name and id |
| Grouping.SameMembersSameGroups | registry/pool.go:280-297 | without such clashes only membership of the list matters, not order or repetition |
| Grouping.Regroup | registry/pool.go:280-297 | purging any flattening of a well-formed pool restores it |
| Grouping.PurgeIdempotent | registry/pool.go:280-297 | purging a flattening of a purged pool changes nothing |
| Stores.ListingGroups | registry/redis/redis.go:181-217 | in whatever order the hash is read, purging gives the one grouping of the store |
| Stores.GroupsOfInjective | registry/pool.go:280-297 | two stores have the same grouping if and only if they are equal |
| RegistryPool.Pool.RegisterInstance | registry/pool.go:157-174 | an unknown service changes nothing; otherwise the instance is added in place, to a new map if there was none |
| RegistryPool.Pool.GetInstance | registry/pool.go:176-185 | the result is the lookup in the pool's view |
| RegistryPool.Pool.UnregisterInstance | registry/pool.go:187-197 | the id leaves the service's map, in place, and an unknown service changes nothing |
| RegistryPool.GroupedPool | registry/pool.go:280-293 | the loop builds a fresh pool, made of fresh objects only, whose view is the grouping of the list |
| RegistryPool.Registry.PurgePool | registry/pool.go:280-297 | the swapped-in pool views as the grouping of the list, and nothing that existed is written |
| RegistryPool.Registry.Call | registry/pool.go:104-297 | a helper has its effect on one instance map of the current pool and on no other existing map; it reaches only objects of that pool, new ones and the Service it is handed |
| RegistryPool.Registry.Calls | registry/pool.go:104-297 | the same for any sequence of helper calls |
| RegistryPool.Registry.RetiredSnapshot | registry/pool.go:199-209 | a map obtained before a PurgePool never changes afterwards, under any helper calls not handed a Service that uses it |
| RegistryPool.Registry.ReopenedSnapshot | registry/pool.go:256-265 | that proviso is needed: handing any old Service back lets a helper change its map |
| Discovery.StepVersioned | registry/redis/redis.go:114-256 | every step keeps each pool and each load in flight equal to one single past version of the store |
| Discovery.RunVersioned | registry/redis/redis.go:114-256 | so over every interleaving of writers, watchers and tickers no pool is a mix of versions |
| Discovery.LastWriteWins | registry/redis/redis.go:114-175 | over any run, whatever is interleaved, the store holds an instance if and only if the last write under its id registers it, or there was none and it was there at the start |
| Discovery.Bookkeeping | registry/redis/redis.go:114-256 | over any run each write is published at most once, each notification consumed, loaded for and swapped in at most once on each node, and what is missing is what the writers, inbox, watcher and ticker still hold |
| Discovery.StepCaughtIff | sicky.go:433-455 | the convergence invariant survives a step if and only if the step is not a ticker installing an outdated load on a node owed no refresh |
| Discovery.RunCaught | registry/redis/redis.go:219-256 | the invariant holds along any run without such steps |
| Discovery.Convergence | registry/redis/redis.go:114-256 | in a run without such steps, of any number of nodes, joining at any time, whenever nothing is under way the pool of every node that was there from the start or was ever notified is the grouping of the store, which holds exactly what the last writes of the run leave |
| Discovery.WatcherConvergence | registry/redis/redis.go:219-256 | with watchers only, that holds for every run |
| Discovery.StartersTold | registry/redis/redis.go:219-256 | the nodes of the start are always among those |
| Discovery.EveryNodeFinds | registry/pool.go:223-232 | then GetInstance on any of them finds an instance if and only if it has the name and the id and its registration is the last write under that id, or it was there and was never written to |
| Discovery.NodeIsCurrentIff | registry/redis/redis.go:219-256 | over any run without a ticker that comes to rest, a node is current if and only if it was there from the start, was notified, or the store is empty |
| Discovery.AllCurrentIff | registry/redis/redis.go:219-256 | so all nodes, those that joined included, are current if and only if all were told or the store is empty |
| Discovery.HeardIff | registry/redis/redis.go:220-229 | a node hears exactly of what is published while it is there |
| Discovery.JoinerIsCurrentIff | sicky.go:457-458 | a node that joins at any moment of any run without a ticker is current at rest if and only if something was published since, or the store is empty |
| Discovery.Settle | registry/redis/redis.go:219-256 | from every state pending publishes and watchers alone can bring any number of nodes to rest |
| Discovery.RecoversIff | registry/redis/redis.go:219-256 | the invariant holds in exactly the states from which the watchers, left alone, can come to rest and always end converged when they do |
| Discovery.Drain | registry/redis/redis.go:219-256 | from any other state, consuming, loading and swapping alone bring any number of nodes to rest without converging |
| Discovery.ConvergenceIff | sicky.go:433-455 | over any run, the watchers left alone at every moment can come to rest and end converged if and only if no ticker installs an outdated load on a told node that is owed no refresh |
| Discovery.TickerUndoesWrite | sicky.go:433-455 | any change of the store can be undone on any node of any number: the run ends at rest with that node behind |
| Discovery.StepStaysSettled | sicky.go:433-455 | with no write, a step keeps a current pool current when all loads in flight began after the last write |
| Discovery.QuietRunStaysCurrent | sicky.go:433-455 | so once the store is quiet such a pool never becomes stale again |
| RedisRegistry.LoadListsStore | registry/redis/redis.go:181-217 | the decoded entries, in any order and skipping foreign ones, list the store exactly |
| RedisRegistry.PutRepresents | registry/redis/redis.go:114-128 | HSet of a registration takes a hash that holds the protocol's store to one that holds it after the protocol's Put: one id written, all others kept |
| RedisRegistry.DelRepresents | registry/redis/redis.go:147-161 | HDel takes it to one that holds the store after the protocol's Del: one id gone, all others kept |
| RedisRegistry.Redis.Register | registry/redis/redis.go:114-145 | a successful call is the protocol's Put on the hash; a failed publish is not reported |
| RedisRegistry.Redis.Deregister | registry/redis/redis.go:147-175 | a successful write is the protocol's Del on the hash; a failed publish is reported |
| RedisRegistry.Redis.Load | registry/redis/redis.go:181-217 | a failed read is an error; otherwise the result lists exactly the represented store |
| RedisRegistry.Redis.Reload | registry/redis/redis.go:229-250 | one watcher turn without interference installs the grouping of the store, which is what the protocol's load and swap install on any node; a failed load leaves the pool |
| Decimals.DecimalInjective | registry/consul/consul.go:159 | different indexes print differently |
| ConsulCodec.PrefixesDisjoint | registry/consul/consul.go:308-337 | the three key ranges do not overlap, for arbitrary keys |
| ConsulCodec.TagKeyInjective | registry/consul/consul.go:157-161 | different tag indexes have different keys |
| ConsulCodec.Encode | registry/consul/consul.go:127-161 | the registration holds every topic, metadata entry and tag under its own key, no others in those ranges, and one tag per server |
| ConsulCodec.Decode | registry/consul/consul.go:259-343 | an entry is dropped if and only if its ID does not parse; otherwise every field is read from its own range, and the servers are those of the tags that decode, the last one per name, tags that do not decode being skipped |
| ConsulCodec.MetadataRoundTrip | registry/consul/consul.go:151-155 | metadata comes back exactly |
| ConsulCodec.TopicsRoundTrip | registry/consul/consul.go:145-149 | topics come back exactly |
| ConsulCodec.TagsRoundTrip | registry/consul/consul.go:157-161 | tags come back as a multiset |
| ConsulCodec.ServersRoundTripIff | registry/consul/consul.go:138-143 | servers come back if and only if each was keyed by its name |
| ConsulCodec.RoundTrip | registry/consul/consul.go:127-343 | the instance is recovered for every iteration order on both sides, its servers if and only if keyed by name |
| ConsulCodec.Agent.Register | registry/consul/consul.go:127-194 | an accepted registration stores an encoding under the printed id, a refused one changes nothing |
| ConsulCodec.Agent.Load | registry/consul/consul.go:244-344 | an error if the agent does not answer; otherwise one decoded instance for each parseable entry, no others |
| Metadata.TrimSpaceCuts | utils/metadata.go:97 | trimming cuts only white space, off both ends, and all of it |
| Metadata.TrimSpaceFixes | utils/metadata.go:97 | a string is unchanged if and only if it is trimmed |
| Metadata.SplitPieces | utils/metadata.go:95 | joining the pieces restores the line, and no piece holds a separator |
| Metadata.SplitJoin | utils/metadata.go:95 | splitting a join of separator-free pieces restores the pieces |
| Metadata.LineSplits | utils/metadata.go:86-97 | a printed line has two parts if and only if key and value are free of `=`, and then they are its parts |
| Metadata.TrimmedImage | utils/metadata.go:83-102 | when trimmed keys do not collide, the result is exactly the trimmed image of the separator-free entries |
| Metadata.OrderIrrelevantIff | utils/metadata.go:83-102 | the result is independent of the print order if and only if no such entries collide |
| Metadata.RoundTripIff | utils/metadata.go:83-102 | parsing the print, in any order, restores the map if and only if it is free of `=` and trimmed |
| Metadata.Strings | utils/metadata.go:83-90 | one line per entry, in some order |
| Metadata.FromStrings | utils/metadata.go:92-102 | for arbitrary lines, a key has the value that the last line setting it sets; lines with no separator, or with more than one, do nothing |
| Metadata.PrintAndParse | utils/metadata.go:83-102 | the two loops composed meet the round-trip law |
| Metadata.Table.Merge | utils/metadata.go:64-68 | entries of the argument win; merging a map into itself is harmless |
| Metadata.Table.Clone | utils/metadata.go:70-81 | the copy is a new map with the same entries |
| EndToEnd.BuiltKeyedByName | sicky.go:193-202 | built instances key their servers by name, even when names repeat |
| EndToEnd.BuildInstance | sicky.go:178-215 | the instance carries the service's id and name; under each server name in use it has the id, kind, name, address and port the last server of that name reports, with the service's id; its metadata have the application's name, version, commit, build time and branch under their five keys and the service's own value under every other; nil metadata panic; the service's own metadata are untouched |
| EndToEnd.RegisteredIsFound | registry/consul/consul.go:244-344 | among arbitrary other entries, a registered instance loaded and grouped in any order is found by name and id |
| EndToEnd.AnnounceAndFind | sicky.go:178-215 | build, register, load, purge and look up finds, field by field, the servers as they report themselves and the metadata as described, with the manager's address and port; the service's own metadata are unchanged |
| WebsocketPool.Session.Close | server/websocket/session.go:74-90 | the session leaves the pool without taking the lock, soundness and completeness stay, and its connection is closed once, and by force when the close frame cannot be written |
| WebsocketPool.Session.SetKey | server/websocket/session.go:96-109 | soundness survives if and only if the key is not empty, completeness if and only if no other live session holds it |
| WebsocketPool.Pool.Put | server/websocket/session.go:150-165 | the indexes stay sound if and only if the session was pooled here or its id and connection were unused, and then complete if and only if its key is free |
| WebsocketPool.Pool.GetByID | server/websocket/session.go:167-174 | agrees with a search of the set of sessions |
| WebsocketPool.Pool.GetByConn | server/websocket/session.go:176-183 | agrees with a search of the set of sessions |
| WebsocketPool.Pool.GetByKey | server/websocket/session.go:185-192 | what is found is a member with that key; in a complete pool nothing is missed |
| WebsocketPool.Pool.CompleteIff | server/websocket/session.go:96-109 | lookup by key is search by key exactly when no two members share a key and every held key is indexed |
| WebsocketPool.Pool.PlainSetIff | server/websocket/session.go:167-192 | exactly then all three indexes are what a search of the set of members finds, and no more |
| WebsocketPool.Pool.RemovalSound | server/websocket/session.go:194-241 | taking out one session keeps index soundness and completeness |
| WebsocketPool.Pool.RekeySoundIff | server/websocket/session.go:96-109 | after re-keying, the indexes are sound if and only if the key is not empty |
| WebsocketPool.Pool.RekeyCompleteIff | server/websocket/session.go:96-109 | and complete if and only if no other member held the key |
| WebsocketPool.Pool.PutSound | server/websocket/session.go:150-165 | putting a pooled session, or one with unused id and connection, keeps index soundness |
| WebsocketPool.Pool.PutUnsound | server/websocket/session.go:150-165 | taking another session's id or connection breaks it |
| WebsocketPool.Pool.PutCompleteIff | server/websocket/session.go:150-165 | and completeness if and only if the key is free |
| WebsocketPool.Pool.RemoveByID | server/websocket/session.go:194-209 | the session leaves all three indexes; an absent id changes nothing |
| WebsocketPool.Pool.RemoveByConn | server/websocket/session.go:211-226 | the same pool results when removed by connection |
| WebsocketPool.Pool.RemoveByKey | server/websocket/session.go:228-241 | the same pool results when removed by key |
| WebsocketPool.Pool.Length | server/websocket/session.go:243-248 | the number of sessions |
| WebsocketPool.Pool.Purge | server/websocket/session.go:250-289 | exactly the sessions within the idle limit stay, exactly the keys of removed ones are freed, one ping and one close where due, completeness kept, the lock taken once |
| WebsocketPool.Pool.PurgeAgain | server/websocket/session.go:250-289 | with nobody idle a purge removes and closes nothing |
| WebsocketPool.Pool.PurgeTwice | server/websocket/session.go:250-289 | repeated at the same instant it removes and closes nothing more |
| WebsocketOperators.Hub.Start | server/websocket/websocket.go:394-397 | the session is pooled before any handler sees it |
| WebsocketOperators.Hub.End | server/websocket/websocket.go:466-467 | whatever happened meanwhile, the session is out of the pool |
| WebsocketOperators.Hub.Rekey | server/websocket/session.go:96-109 | while no key was taken over, the pool stays complete if and only if this call takes none over |
| WebsocketOperators.Hub.Step | server/websocket/websocket.go:377-506 | any operator, handler call or purge keeps pooled sessions among those of running operators and changes exactly the sessions it is about; it closes and pings exactly the connections it must, once; while no key was taken over, lookup by key stays complete if and only if the event is no takeover |
| WebsocketOperators.Hub.NoOperatorNoSession | server/websocket/websocket.go:377-506 | with no operator running all three indexes are empty |
| WebsocketOperators.Run | server/websocket/websocket.go:377-506 | over every interleaving there is one session per new id, running unless it finished, with the key and the time of last activity that its own events give it; pooled sessions belong to running operators; without a takeover the pool is a plain set of sessions, and distinct keys exclude takeovers |
| WebsocketOperators.ReadLoop | server/websocket/websocket.go:414-464 | among any events between frames, the OnData calls correspond one to one, in order and with equal bodies, to the data frames before the ending one; LastActive is the time of the last data or pong frame, or of this session's last message or send after it; the session stays pooled while no event is about it or its keys |
| WebsocketOperators.Operator | server/websocket/websocket.go:377-506 | whatever happens between frames, a handler sees OnConnect, then each data frame's body once and in order, an error only if the read failed, then OnClose once, when the session has left the pool |
| StaticRunner.StepKeepsConserved | runner/static/static.go:96-177 | every step of Start, Task, Stop and the workers keeps conservation, order and capacity, and tasks enter only by Task on an open channel, each sender's own |
| StaticRunner.StepKeepsOrdered | runner/static/static.go:114-177 | a worker leaves only a closed, empty channel, and nothing is taken before some worker captured it |
| StaticRunner.AsSubmitted | runner/static/static.go:117-143 | over every run, what was accepted or is being sent is exactly what Task was given before the first Stop, each task as often as given; a worker has captured the channel if and only if one got to it before the first Stop |
| StaticRunner.WorkersStarted | runner/static/static.go:96-103 | there are as many workers as the Start calls ask for |
| StaticRunner.Conservation | runner/static/static.go:96-177 | in every reachable state the tasks submitted before the first Stop are being sent, queued, in a worker or finished, each as often as submitted; they are taken in the order accepted; the queue respects its capacity |
| StaticRunner.DrainIff | runner/static/static.go:114-177 | after Stop and the exit of the workers, every task submitted before Stop was handled exactly as often as submitted if and only if none was or some worker got to the channel before Stop |
| StaticRunner.DrainIffAtStop | runner/static/static.go:114-126 | the same, decided in the state in which Stop is called, for every way to go on |
| StaticRunner.CanDrain | runner/static/static.go:137-177 | after Stop there always is a way to go on until the workers have exited |
| StaticRunner.GetsThrough | runner/static/static.go:135-177 | a blocked Task, whichever it is, gets its own task accepted: at once if there is room, otherwise by any one worker |
| StaticRunner.CanFinishAll | runner/static/static.go:96-177 | before Stop, once some worker got to the channel, every run can go on until all submitted tasks were handled, each as often as submitted, and the workers are done |
| StaticRunner.CallsAlwaysPossible | runner/static/static.go:96-143 | Start and Task can be called after any run, Stop whenever no Task is blocked |
| StaticRunner.LateWorkerLosesTasks | runner/static/static.go:96-126 | a run in which an accepted task is never handled |
| StaticRunner.Rendezvous | runner/static/static.go:64 | with capacity 0 a task is accepted only by a worker taking it |
| StaticRunner.Ensure | runner/options.go:74-82 | at least one worker, four per CPU when unset; a capacity of 0 stays, a negative one becomes 256 |
| TickerJob.Ticker.Pass | job/ticker/ticker.go:124-150 | one tick calls the due tasks among those present at its start, whatever handlers return or add, then counts one; it panics if and only if it reaches an interval of 0; success is logged for exactly the due tasks whose handler did not fail |
| TickerJob.CounterIsTotal | job/ticker/ticker.go:126-149 | the counter, and what handlers are given, is the number of ticks delivered as a 64-bit word, over every run |
| TickerJob.DueOnce | job/ticker/ticker.go:125-146 | a pass calls each due task once and no other |
| TickerJob.Law | job/ticker/ticker.go:101-170 | a task present throughout a run, from any state, is called exactly on schedule, through any Stop, Start and Add |
| TickerJob.AsGiven | job/ticker/ticker.go:101-170 | after any events of a new ticker its tasks are exactly those given by Add or during passes, in order and unchanged, its ticks are counted, and it runs if and only if it was started and not stopped since |
| TickerJob.TickIff | job/ticker/ticker.go:114-170 | a tick can come if and only if the ticker was started and not stopped since and no task has an interval of 0 |
| TickerJob.NoTickWhileStopped | job/ticker/ticker.go:158-170 | between a Stop and the next Start no tick is delivered |
| TickerJob.GivenLaw | job/ticker/ticker.go:101-170 | the task that comes with any event of a new ticker is called exactly on the schedule of the interval it was given with, among the ticks after that event |
| TickerJob.AddedLater | job/ticker/ticker.go:125-146 | tasks added during a pass are not called in it |
| TickerJob.ScheduledOnce | job/ticker/ticker.go:126 | the schedule lists each tick at which the counter is a multiple of k once, ascending |
| TickerJob.ScheduledCount | job/ticker/ticker.go:126 | below 2^64 it has ceil(b/k) - ceil(a/k) ticks over [a, b) |
| TickerJob.CountingLaw | job/ticker/ticker.go:101-170 | from any state the counting law holds for every run below 2^64 ticks: so many calls, at exactly the multiples of the interval, ascending |
| TickerJob.WrapIff | job/ticker/ticker.go:101-170 | over a run of any length that begins before the first wrap-around, a task is called at exactly the multiples of its interval if and only if at most 2^64 ticks were delivered or the interval divides 2^64 |
| TickerJob.GivenMultiplesIff | job/ticker/ticker.go:101-170 | a task given before the first wrap-around is called at exactly the multiples of its interval among the ticks after it was given, once each and ascending, if and only if the events have at most 2^64 ticks or the interval divides 2^64 |
| NatsBroker.Nats.Subscribe | broker/nats/nats.go:208-269 | which error comes when, and otherwise one new live subscription on the current connection |
| NatsBroker.Nats.Unsubscribe | broker/nats/nats.go:271-279 | the topic has no entry, and what it had is dead |
| NatsBroker.Nats.Disconnect | broker/nats/nats.go:145-164 | an open connection is closed, exactly the listed subscriptions of handlers' topics are unsubscribed, on whatever connection, and no handler's topic stays alive anywhere; without one nothing changes |
| NatsBroker.Nats.Connect | broker/nats/nats.go:98-143 | a handler's topic is alive on the new connection, exactly once overall, if and only if it had no entry before |
| NatsBroker.Nats.Reconnect | broker/nats/nats.go:98-164 | Disconnect of an open connection, then Connect: exactly one live subscription per handler's topic, on the new connection, with its handler |
| NatsBroker.Nats.Step | broker/nats/nats.go:98-294 | every call and every connection change keeps the invariant |
| NatsBroker.Run | broker/nats/nats.go:98-294 | so over every run a topic has at most one live subscription over all connections ever opened, and its handler is the one registered last |
| NatsBroker.StaleEntry | broker/nats/nats.go:145-164 | a run after which a handler's topic is not subscribed on an open connection |
| TcpReadLoop.Serve | server/tcp/tcp.go:275-347 | the handlers are called with exactly the notices of the reads, in arrays that are fresh, distinct and never written again |
| TcpReadLoop.SameForAll | server/tcp/tcp.go:277-346 | every handler sees all events in the same order |
| TcpReadLoop.Order | server/tcp/tcp.go:277-346 | OnConnect first and once; OnClose last and at most once, exactly when a read ended the loop |
| TcpReadLoop.EachRead | server/tcp/tcp.go:285-329 | between them, one OnError for each failing read that does not end the loop and one OnData with just its bytes for each read that returned some, in order, and nothing else |
| TcpReadLoop.Delivered | server/tcp/tcp.go:285-329 | the payloads concatenated are the bytes of the error-free reads, in order |
| TcpReadLoop.DeliveredAllIff | server/tcp/tcp.go:285-329 | over any reader they are all bytes the reads returned if and only if no failing read returned any |
| TcpReadLoop.AllDelivered | server/tcp/tcp.go:226-329 | over connections whose reads return no bytes with an error, as a plain listener's do, the payloads are always all the bytes read so far |
| Lifecycle.App.Init | sicky.go:152-159 | exactly the known names, once trimmed, become required |
| Lifecycle.App.CheckInfra | sicky.go:252-400 | Run goes on if and only if everything configured initialises and everything required is configured |
| Lifecycle.App.StartServices | sicky.go:540-597 | services start and register in visiting order up to the first that fails, which is stopped again, or whose instance cannot be built, which panics |
| Lifecycle.App.StopServices | sicky.go:629-683 | services are deregistered and stopped in an order of its own, up to and including the first that fails to stop |
| Lifecycle.App.Run | sicky.go:217-771 | if Run returns nil each service has exactly Start, Register, Deregister, Stop, whatever the orders; every other exit, errors, panic and fatal wrappers before, while and after they run, leaves each service its exact fate; Run returns nil if and only if none of these occurs |
| Lifecycle.App.Launch | sicky.go:152-400 | no service starts unless every required known infra is configured |
| Lifecycle.FullReplay | sicky.go:540-683 | the store after a full run, for any two visiting orders and any failing registry calls |
| Lifecycle.RestoredIff | sicky.go:583-643 | the store is back to its contents if and only if every id was absent and deleted, or what was left there equals what was there |

## Left out

- HTTP, fiber and gRPC servers, clients, middlewares, tracers, metrics and infra initialisers: thin wrappers over libraries.
- Config and Options defaults other than the runner's: settled by reading one branch.
- `registry/local` and `registry/mdns`: the first reads files one at a time, the second is inactive.
- `registry/consul/watcher.go`: its watch library is not part of this model, so Consul instances reach a pool here only by an explicit load.
- `Metadata.Get`, `Value` and `Delete`: one map operation each.
- Jetstream and NSQ brokers, and Publish: the same shape as the NATS broker, with more of the library.
- `server/udp`, and `server/tcp/session.go`: the latter is the websocket pool without re-keying, pings and two of the removal routes.
- JSON, UUID text and sockets: parameters. The codecs are assumed to invert each other; a nil map and an empty map are one.
- Topic back pointers to their instance, and instance pointers shared between a pool and its caller: instances are values.
- Discovery.Convergence: assumes lossless notifications, an atomic HGetAll and successful loads, because the code retries none of them; a node that leaves is one that takes no more steps.
- WebsocketPool.Pool.RemoveByID: one call is one atomic step, although Get, Remove and part of SetKey run without the lock in the source.
- WebsocketOperators.Hub.Step: a handler re-keys with a non-empty key, and new sessions have new ids and connections; what the others do is stated by SetKey and Put themselves.
- StaticRunner.Conservation: goroutines and their channel are a state machine over values, one step per channel operation, rather than a class; Stop is not concurrent with a blocked Task, since closing a channel under a sender panics, and handlers return.
- TickerJob.Law: a pass is over before the next tick is delivered; a handler still running through Stop and Start would let two tick goroutines overlap. Task ids are not generated.
- NatsBroker.Nats.Connect: the connection does not change state in the middle of a call other than by refusing a subscription.
- TcpReadLoop.AllDelivered: that a connection's read returns no bytes with an error is a fact about the network library, assumed.
- TcpReadLoop.Serve: handlers do not write to the payload, which they share; accepting and the server's Stop are not modelled.
- Lifecycle.App.Run: the set of services is fixed; registries, brokers, flags and the manager only abort before the services start; signals and the closing of infra are not modelled.
