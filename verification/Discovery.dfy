/** registry/redis/redis.go and the purge ticker of sicky.go as one protocol.

    Writers change the shared hash and then publish; every node's watcher consumes a
    notification, loads the hash and swaps in the grouping of what it loaded; every node's
    purge ticker loads and swaps too. Loading and swapping are separate steps, so loads are
    in flight while others write. Nodes may join at any time, with an empty pool. Assumed:
    HGetAll is atomic, every notification reaches every node there is, loads succeed. */
module Discovery {
  import opened Instances
  import opened Listings
  import opened Grouping
  import opened Stores

  /** What a load returned, and (for specification) the number of the store version it read. */
  datatype Snapshot = Snapshot(data: Store, at: nat)

  datatype Watcher = Idle | Notified | Loaded(snap: Snapshot)

  /** `poolAt` is the version the pool was made from (for specification), None for the empty
      pool of InitPool. `told` says that the node was there from the start or has received a
      notification since it joined. */
  datatype Node = Node(
    pool: Groups, poolAt: Option<nat>, inbox: nat, watcher: Watcher, ticker: Option<Snapshot>, told: bool)

  /** `history` lists the versions of the shared hash; the last one is the current content.
      `publishing` counts writers between their write and their publish. */
  datatype State = State(history: seq<Store>, publishing: nat, nodes: seq<Node>)

  datatype Step =
    | Join
    | Put(x: Instance)
    | Del(id: UUID)
    | Publish
    | Consume(n: nat)
    | Load(n: nat)
    | Purge(n: nat, order: seq<UUID>)
    | TickLoad(n: nat)
    | TickPurge(n: nat, order: seq<UUID>)

  function StoreOf(s: State): Store
    requires s.history != []
  {
    s.history[|s.history| - 1]
  }

  function Read(s: State): Snapshot
    requires s.history != []
  {
    Snapshot(StoreOf(s), |s.history| - 1)
  }

  ghost predicate Enabled(s: State, step: Step) {
    && s.history != []
    && match step
       case Join => true
       case Put(_) => true
       case Del(_) => true
       case Publish => s.publishing > 0
       case Consume(n) => n < |s.nodes| && s.nodes[n].inbox > 0 && s.nodes[n].watcher.Idle?
       case Load(n) => n < |s.nodes| && s.nodes[n].watcher.Notified?
       case Purge(n, order) =>
         n < |s.nodes| && s.nodes[n].watcher.Loaded? && Lists(order, s.nodes[n].watcher.snap.data.Keys)
       case TickLoad(n) => n < |s.nodes| && s.nodes[n].ticker.None?
       case TickPurge(n, order) =>
         n < |s.nodes| && s.nodes[n].ticker.Some? && Lists(order, s.nodes[n].ticker.value.data.Keys)
  }

  /** PurgePool on what a load returned, visited in `order`. */
  ghost function Install(node: Node, snap: Snapshot, order: seq<UUID>): Node
    requires Lists(order, snap.data.Keys)
  {
    node.(pool := Group(Pick(order, snap.data)), poolAt := Some(snap.at))
  }

  function SetNode(s: State, n: nat, node: Node): State
    requires n < |s.nodes|
  {
    s.(nodes := s.nodes[n := node])
  }

  ghost function Apply(s: State, step: Step): State
    requires Enabled(s, step)
  {
    match step
    case Join => s.(nodes := s.nodes + [Node(map[], None, 0, Idle, None, false)])
    case Put(x) => s.(history := s.history + [StoreOf(s)[x.id := x]], publishing := s.publishing + 1)
    case Del(id) => s.(history := s.history + [StoreOf(s) - {id}], publishing := s.publishing + 1)
    case Publish =>
      s.(publishing := s.publishing - 1,
         nodes := seq(|s.nodes|, i requires 0 <= i < |s.nodes| => s.nodes[i].(inbox := s.nodes[i].inbox + 1)))
    case Consume(n) => SetNode(s, n, s.nodes[n].(inbox := s.nodes[n].inbox - 1, watcher := Notified, told := true))
    case Load(n) => SetNode(s, n, s.nodes[n].(watcher := Loaded(Read(s))))
    case Purge(n, order) => SetNode(s, n, Install(s.nodes[n], s.nodes[n].watcher.snap, order).(watcher := Idle))
    case TickLoad(n) => SetNode(s, n, s.nodes[n].(ticker := Some(Read(s))))
    case TickPurge(n, order) => SetNode(s, n, Install(s.nodes[n], s.nodes[n].ticker.value, order).(ticker := None))
  }

  ghost predicate ValidRun(s: State, steps: seq<Step>)
    decreases |steps|
  {
    steps == [] || (Enabled(s, steps[0]) && ValidRun(Apply(s, steps[0]), steps[1..]))
  }

  ghost function Final(s: State, steps: seq<Step>): State
    requires ValidRun(s, steps)
    decreases |steps|
  {
    if steps == [] then s else Final(Apply(s, steps[0]), steps[1..])
  }

  lemma {:induction false} RunConcat(s: State, a: seq<Step>, b: seq<Step>)
    requires ValidRun(s, a) && ValidRun(Final(s, a), b)
    ensures ValidRun(s, a + b) && Final(s, a + b) == Final(Final(s, a), b)
    decreases |a|
  {
    if a == [] {
      assert a + b == b;
    } else {
      assert (a + b)[1..] == a[1..] + b;
      RunConcat(Apply(s, a[0]), a[1..], b);
    }
  }

  lemma {:induction false} LastStep(s: State, init: seq<Step>, last: Step)
    requires ValidRun(s, init + [last])
    ensures ValidRun(s, init) && Enabled(Final(s, init), last)
    ensures Final(s, init + [last]) == Apply(Final(s, init), last)
    decreases |init|
  {
    var steps := init + [last];
    if init == [] {
      assert steps[0] == last && steps[1..] == [];
    } else {
      assert steps[0] == init[0] && steps[1..] == init[1..] + [last];
      LastStep(Apply(s, init[0]), init[1..], last);
    }
  }

  // ---- what a run leaves in the store ----

  predicate Writes(step: Step) {
    step.Put? || step.Del?
  }

  /** The step puts or deletes under this id. */
  predicate WritesUnder(step: Step, id: UUID) {
    match step
    case Put(x) => x.id == id
    case Del(i) => i == id
    case _ => false
  }

  /** From step i on nothing is written under the id. */
  ghost predicate Untouched(steps: seq<Step>, i: nat, id: UUID) {
    forall j :: i <= j < |steps| ==> !WritesUnder(steps[j], id)
  }

  predicate Has(store: Store, x: Instance) {
    x.id in store && store[x.id] == x
  }

  /** The steps leave x under its id: the last write there puts it, or there was none and x was
      there at the start. */
  ghost predicate Left(start: Store, steps: seq<Step>, x: Instance) {
    || (Untouched(steps, 0, x.id) && Has(start, x))
    || (exists i :: 0 <= i < |steps| && steps[i] == Put(x) && Untouched(steps, i + 1, x.id))
  }

  lemma LeftNext(start: Store, init: seq<Step>, last: Step, x: Instance)
    ensures Left(start, init + [last], x) <==>
            last == Put(x) || (!WritesUnder(last, x.id) && Left(start, init, x))
  {
    var steps, n := init + [last], |init|;
    assert steps[n] == last && forall j :: 0 <= j < n ==> steps[j] == init[j];
    if last == Put(x) {
      assert Untouched(steps, n + 1, x.id);
    } else if WritesUnder(last, x.id) {
      assert !Left(start, steps, x);
    } else {
      assert forall i :: 0 <= i <= n ==> (Untouched(steps, i, x.id) <==> Untouched(init, i, x.id));
      if i :| 0 <= i < |init| && init[i] == Put(x) && Untouched(init, i + 1, x.id) {
        assert steps[i] == Put(x) && Untouched(steps, i + 1, x.id);
      }
      if i :| 0 <= i < |steps| && steps[i] == Put(x) && Untouched(steps, i + 1, x.id) {
        assert init[i] == Put(x) && Untouched(init, i + 1, x.id);
      }
    }
  }

  lemma StepLeaves(s: State, step: Step)
    requires s.history != [] && OwnKeys(StoreOf(s)) && Enabled(s, step)
    ensures var s' := Apply(s, step);
            && s'.history != [] && OwnKeys(StoreOf(s'))
            && forall x :: Has(StoreOf(s'), x) <==>
                           step == Put(x) || (!WritesUnder(step, x.id) && Has(StoreOf(s), x))
  {
    hide Group, Pick, Lists;
  }

  /** Over any run, whatever else is interleaved, the last write under each id wins: the store
      holds x if and only if the steps leave it there. */
  lemma {:induction false} LastWriteWins(s: State, steps: seq<Step>)
    requires s.history != [] && OwnKeys(StoreOf(s)) && ValidRun(s, steps)
    ensures var f := Final(s, steps);
            && f.history != [] && OwnKeys(StoreOf(f))
            && forall x :: Has(StoreOf(f), x) <==> Left(StoreOf(s), steps, x)
    decreases |steps|
  {
    hide Apply, Enabled, Has, WritesUnder, OwnKeys;
    if steps == [] {
      assert forall x :: Left(StoreOf(s), [], x) <==> Has(StoreOf(s), x);
    } else {
      hide Left;
      var n := |steps| - 1;
      var init, last := steps[..n], steps[n];
      assert steps == init + [last];
      LastStep(s, init, last);
      LastWriteWins(s, init);
      StepLeaves(Final(s, init), last);
      forall x ensures Has(StoreOf(Final(s, steps)), x) <==> Left(StoreOf(s), steps, x) {
        LeftNext(StoreOf(s), init, last, x);
      }
    }
  }

  // ---- every write is published, every notification acted on, once ----

  function Count(steps: seq<Step>, p: Step -> bool): nat {
    if steps == [] then 0 else (if p(steps[0]) then 1 else 0) + Count(steps[1..], p)
  }

  function One(b: bool): nat {
    if b then 1 else 0
  }

  predicate Publishes(step: Step) {
    step.Publish?
  }

  function Of(kind: Step): Step -> bool {
    (e: Step) => e == kind
  }

  function Purges(n: nat): Step -> bool {
    (e: Step) => e.Purge? && e.n == n
  }

  function TickPurges(n: nat): Step -> bool {
    (e: Step) => e.TickPurge? && e.n == n
  }

  lemma StepBookkeeping(s: State, e: Step, n: nat)
    requires Enabled(s, e) && n < |s.nodes|
    ensures var s' := Apply(s, e);
            && n < |s'.nodes|
            && s'.publishing + One(e.Publish?) == s.publishing + One(Writes(e))
            && var a, b := s.nodes[n], s'.nodes[n];
               && b.inbox + One(e == Consume(n)) == a.inbox + One(e.Publish?)
               && One(b.watcher.Notified?) + One(e == Load(n)) == One(a.watcher.Notified?) + One(e == Consume(n))
               && One(b.watcher.Loaded?) + One(e.Purge? && e.n == n) == One(a.watcher.Loaded?) + One(e == Load(n))
               && One(b.ticker.Some?) + One(e.TickPurge? && e.n == n) ==
                  One(a.ticker.Some?) + One(e == TickLoad(n))
  {
    hide Group, Pick, Lists;
  }

  /** Writers still to publish account for the writes without a publish; a node's inbox, watcher
      and ticker account for the notifications, loads and ticks it has not finished with. */
  lemma {:induction false} Bookkeeping(s: State, steps: seq<Step>, n: nat)
    requires ValidRun(s, steps) && n < |s.nodes|
    ensures var f := Final(s, steps);
            && n < |f.nodes|
            && s.publishing + Count(steps, Writes) == f.publishing + Count(steps, Publishes)
            && var a, b := s.nodes[n], f.nodes[n];
               && a.inbox + Count(steps, Publishes) == b.inbox + Count(steps, Of(Consume(n)))
               && One(a.watcher.Notified?) + Count(steps, Of(Consume(n))) ==
                  One(b.watcher.Notified?) + Count(steps, Of(Load(n)))
               && One(a.watcher.Loaded?) + Count(steps, Of(Load(n))) ==
                  One(b.watcher.Loaded?) + Count(steps, Purges(n))
               && One(a.ticker.Some?) + Count(steps, Of(TickLoad(n))) ==
                  One(b.ticker.Some?) + Count(steps, TickPurges(n))
    decreases |steps|
  {
    if steps != [] {
      StepBookkeeping(s, steps[0], n);
      Bookkeeping(Apply(s, steps[0]), steps[1..], n);
      hide Apply, Enabled;
    }
  }

  // ---- every pool is the grouping of one store version ----

  ghost predicate OneVersion(history: seq<Store>, snap: Snapshot) {
    snap.at < |history| && snap.data == history[snap.at]
  }

  ghost predicate NodeVersioned(history: seq<Store>, node: Node) {
    && (match node.poolAt
        case None => node.pool == map[]
        case Some(v) => v < |history| && node.pool == GroupsOf(history[v]))
    && (node.watcher.Loaded? ==> OneVersion(history, node.watcher.snap))
    && (node.ticker.Some? ==> OneVersion(history, node.ticker.value))
  }

  /** Each pool, and each load in flight, is exactly one past version of the store; a pool
      nothing was installed in is empty. */
  ghost predicate Versioned(s: State) {
    && s.history != []
    && (forall v :: 0 <= v < |s.history| ==> OwnKeys(s.history[v]))
    && (forall n :: 0 <= n < |s.nodes| ==> NodeVersioned(s.history, s.nodes[n]))
  }

  lemma InstallVersioned(history: seq<Store>, node: Node, snap: Snapshot, order: seq<UUID>)
    requires OneVersion(history, snap) && OwnKeys(snap.data) && Lists(order, snap.data.Keys)
    ensures Install(node, snap, order).pool == GroupsOf(history[snap.at]) == GroupsOf(snap.data)
  {
    ListingGroups(snap.data, order);
  }

  lemma StepVersioned(s: State, step: Step)
    requires Versioned(s) && Enabled(s, step)
    ensures Versioned(Apply(s, step))
  {
    hide GroupsOf, Group, Pick;
    match step
    case Join =>
      assert forall n :: 0 <= n < |s.nodes| ==> Apply(s, step).nodes[n] == s.nodes[n];
    case Purge(n, order) =>
      assert NodeVersioned(s.history, s.nodes[n]);
      InstallVersioned(s.history, s.nodes[n], s.nodes[n].watcher.snap, order);
    case TickPurge(n, order) =>
      assert NodeVersioned(s.history, s.nodes[n]);
      InstallVersioned(s.history, s.nodes[n], s.nodes[n].ticker.value, order);
    case Publish =>
      var s' := Apply(s, step);
      forall n | 0 <= n < |s'.nodes| ensures NodeVersioned(s'.history, s'.nodes[n]) {
        assert NodeVersioned(s.history, s.nodes[n]);
      }
    case Put(_) =>
      var s' := Apply(s, step);
      forall n | 0 <= n < |s'.nodes| ensures NodeVersioned(s'.history, s'.nodes[n]) {
        assert NodeVersioned(s.history, s.nodes[n]);
      }
    case Del(_) =>
      var s' := Apply(s, step);
      forall n | 0 <= n < |s'.nodes| ensures NodeVersioned(s'.history, s'.nodes[n]) {
        assert NodeVersioned(s.history, s.nodes[n]);
      }
    case _ =>
  }

  /** Over every run, with any interleaving of writers, watchers and tickers. */
  lemma {:induction false} RunVersioned(s: State, steps: seq<Step>)
    requires Versioned(s) && ValidRun(s, steps)
    ensures Versioned(Final(s, steps))
    decreases |steps|
  {
    if steps != [] {
      StepVersioned(s, steps[0]);
      RunVersioned(Apply(s, steps[0]), steps[1..]);
    }
  }

  // ---- convergence ----

  /** A notification for this node is still to come, or being acted on. */
  ghost predicate Owed(s: State, node: Node) {
    s.publishing > 0 || node.inbox > 0 || node.watcher.Notified?
  }

  /** A told node that is owed nothing has the current store in its pool, or in flight. */
  ghost predicate Caught(s: State, node: Node)
    requires s.history != []
  {
    node.told && !Owed(s, node) ==>
      match node.watcher
      case Loaded(snap) => snap.data == StoreOf(s)
      case _ => node.pool == GroupsOf(StoreOf(s))
  }

  ghost predicate AllCaught(s: State)
    requires s.history != []
  {
    forall n :: 0 <= n < |s.nodes| ==> Caught(s, s.nodes[n])
  }

  /** The only step that can lose track: a ticker installing an outdated load on a node
      that no watcher is going to refresh. */
  ghost predicate Outdated(s: State, step: Step)
    requires Enabled(s, step)
  {
    step.TickPurge?
    && var node := s.nodes[step.n];
       node.told && !Owed(s, node) && !node.watcher.Loaded? && node.ticker.value.data != StoreOf(s)
  }

  lemma OtherNodes(s: State, s': State, n: nat)
    requires n < |s.nodes| && s'.history == s.history != [] && s'.publishing == s.publishing
    requires |s'.nodes| == |s.nodes| && s'.nodes == s.nodes[n := s'.nodes[n]]
    requires AllCaught(s)
    ensures AllCaught(s') <==> Caught(s', s'.nodes[n])
  {
    forall m | 0 <= m < |s'.nodes| && m != n ensures Caught(s', s'.nodes[m]) {
      assert Caught(s, s.nodes[m]);
    }
  }

  /** Exactly the outdated ticker installs break the invariant. */
  lemma StepCaughtIff(s: State, step: Step)
    requires Versioned(s) && AllCaught(s) && Enabled(s, step)
    ensures AllCaught(Apply(s, step)) <==> !Outdated(s, step)
  {
    hide GroupsOf, Group, Pick;
    var s' := Apply(s, step);
    match step
    case Join =>
      forall n | 0 <= n < |s'.nodes| ensures Caught(s', s'.nodes[n]) {
        assert n < |s.nodes| ==> Caught(s, s.nodes[n]);
      }
    case Put(_) =>
    case Del(_) =>
    case Publish =>
    case Consume(n) =>
      OtherNodes(s, s', n);
    case Load(n) =>
      OtherNodes(s, s', n);
    case TickLoad(n) =>
      assert Caught(s, s.nodes[n]);
      OtherNodes(s, s', n);
    case Purge(n, order) =>
      assert Caught(s, s.nodes[n]) && NodeVersioned(s.history, s.nodes[n]);
      InstallVersioned(s.history, s.nodes[n], s.nodes[n].watcher.snap, order);
      OtherNodes(s, s', n);
    case TickPurge(n, order) =>
      assert Caught(s, s.nodes[n]) && NodeVersioned(s.history, s.nodes[n]);
      InstallVersioned(s.history, s.nodes[n], s.nodes[n].ticker.value, order);
      GroupsOfInjective(s.nodes[n].ticker.value.data, StoreOf(s));
      OtherNodes(s, s', n);
  }

  /** No step of the run is an outdated ticker install. */
  ghost predicate NeverOutdated(s: State, steps: seq<Step>)
    requires ValidRun(s, steps)
    decreases |steps|
  {
    steps == [] || (!Outdated(s, steps[0]) && NeverOutdated(Apply(s, steps[0]), steps[1..]))
  }

  lemma {:induction false} RunCaught(s: State, steps: seq<Step>)
    requires Versioned(s) && AllCaught(s) && ValidRun(s, steps) && NeverOutdated(s, steps)
    ensures Versioned(Final(s, steps)) && AllCaught(Final(s, steps))
    decreases |steps|
  {
    if steps != [] {
      StepVersioned(s, steps[0]);
      StepCaughtIff(s, steps[0]);
      RunCaught(Apply(s, steps[0]), steps[1..]);
    }
  }

  /** Every pool is the grouping of the store, and nothing is under way. */
  ghost predicate Initial(s: State) {
    && s.history != [] && (forall v :: 0 <= v < |s.history| ==> OwnKeys(s.history[v]))
    && s.publishing == 0
    && forall n :: 0 <= n < |s.nodes| ==>
         s.nodes[n] == Node(GroupsOf(StoreOf(s)), Some(|s.history| - 1), 0, Idle, None, true)
  }

  /** No writer between write and publish, no notification pending, no watcher mid-reload. */
  ghost predicate Quiescent(s: State) {
    && s.publishing == 0
    && forall n :: 0 <= n < |s.nodes| ==> s.nodes[n].inbox == 0 && s.nodes[n].watcher.Idle?
  }

  /** Every node told has the grouping of the shared store in its pool. */
  ghost predicate Converged(s: State)
    requires s.history != []
  {
    forall n :: 0 <= n < |s.nodes| && s.nodes[n].told ==> s.nodes[n].pool == GroupsOf(StoreOf(s))
  }

  lemma InitialCaught(s: State)
    requires Initial(s)
    ensures Versioned(s) && AllCaught(s)
  {
  }

  /** Convergence: after any run without outdated ticker installs, whenever the system is
      quiescent every told node's pool is the grouping of the shared store, and that is what
      the last writes of the run leave. */
  lemma Convergence(s: State, steps: seq<Step>)
    requires Initial(s) && ValidRun(s, steps) && NeverOutdated(s, steps)
    requires Quiescent(Final(s, steps))
    ensures Final(s, steps).history != [] && Converged(Final(s, steps))
    ensures forall x :: Has(StoreOf(Final(s, steps)), x) <==> Left(StoreOf(s), steps, x)
  {
    InitialCaught(s);
    LastWriteWins(s, steps);
    RunCaught(s, steps);
    var s' := Final(s, steps);
    forall n | 0 <= n < |s'.nodes| && s'.nodes[n].told ensures s'.nodes[n].pool == GroupsOf(StoreOf(s')) {
      assert Caught(s', s'.nodes[n]);
    }
  }

  /** Watchers alone never lose track. */
  ghost predicate WatchersOnly(steps: seq<Step>) {
    forall i :: 0 <= i < |steps| ==> !steps[i].TickPurge?
  }

  lemma {:induction false} WatchersNeverOutdated(s: State, steps: seq<Step>)
    requires ValidRun(s, steps) && WatchersOnly(steps)
    ensures NeverOutdated(s, steps)
    decreases |steps|
  {
    if steps != [] {
      assert !steps[0].TickPurge?;
      WatchersNeverOutdated(Apply(s, steps[0]), steps[1..]);
    }
  }

  lemma WatcherConvergence(s: State, steps: seq<Step>)
    requires Initial(s) && ValidRun(s, steps) && WatchersOnly(steps)
    requires Quiescent(Final(s, steps))
    ensures Final(s, steps).history != [] && Converged(Final(s, steps))
  {
    WatchersNeverOutdated(s, steps);
    Convergence(s, steps);
  }

  /** The nodes of the start are told all along, so they are among those that converge. */
  lemma {:induction false} StartersTold(s: State, steps: seq<Step>, n: nat)
    requires ValidRun(s, steps) && n < |s.nodes| && s.nodes[n].told
    ensures n < |Final(s, steps).nodes| && Final(s, steps).nodes[n].told
    decreases |steps|
  {
    if steps != [] {
      StartersTold(Apply(s, steps[0]), steps[1..], n);
    }
  }

  /** What convergence means to a caller: GetInstance on any told node finds exactly what is in
      the shared store, and so exactly what the writes of the run leave: an instance whose
      registration is the last write under its id, or that was there and never written to. */
  lemma EveryNodeFinds(s: State, steps: seq<Step>, n: nat, name: string, id: UUID)
    requires Initial(s) && ValidRun(s, steps) && NeverOutdated(s, steps) && Quiescent(Final(s, steps))
    requires n < |Final(s, steps).nodes| && Final(s, steps).nodes[n].told
    ensures var f := Final(s, steps);
            && f.history != []
            && Lookup(f.nodes[n].pool, name, id) ==
               if id in StoreOf(f) && StoreOf(f)[id].serviceName == name then Some(StoreOf(f)[id]) else None
    ensures forall x :: Lookup(Final(s, steps).nodes[n].pool, name, id) == Some(x) <==>
                        x.serviceName == name && x.id == id && Left(StoreOf(s), steps, x)
  {
    Convergence(s, steps);
    LastWriteWins(s, steps);
    GroupsOfLookup(StoreOf(Final(s, steps)), name, id);
    hide Left, GroupsOf, Converged, ValidRun, NeverOutdated;
  }

  // ---- nodes that join ----

  /** Without a ticker, a node that was not notified has neither loaded nor swapped. */
  ghost predicate UntoldIsEmpty(s: State) {
    forall n :: 0 <= n < |s.nodes| && !s.nodes[n].told ==> s.nodes[n].pool == map[] && s.nodes[n].watcher.Idle?
  }

  lemma StepUntold(s: State, step: Step)
    requires UntoldIsEmpty(s) && Enabled(s, step) && !step.TickPurge?
    ensures UntoldIsEmpty(Apply(s, step))
  {
    hide GroupsOf, Group, Pick, Lists;
    var s' := Apply(s, step);
    forall n | 0 <= n < |s'.nodes| && !s'.nodes[n].told
      ensures s'.nodes[n].pool == map[] && s'.nodes[n].watcher.Idle?
    {
      assert n < |s.nodes| && !s.nodes[n].told ==> s.nodes[n].pool == map[] && s.nodes[n].watcher.Idle?;
    }
  }

  lemma {:induction false} RunUntold(s: State, steps: seq<Step>)
    requires UntoldIsEmpty(s) && ValidRun(s, steps) && WatchersOnly(steps)
    ensures UntoldIsEmpty(Final(s, steps))
    decreases |steps|
  {
    if steps != [] {
      StepUntold(s, steps[0]);
      RunUntold(Apply(s, steps[0]), steps[1..]);
    }
  }

  /** At rest, a node is current if and only if it was told or there is nothing to tell. */
  lemma NodeIsCurrentIff(s: State, steps: seq<Step>, n: nat)
    requires Initial(s) && ValidRun(s, steps) && WatchersOnly(steps) && Quiescent(Final(s, steps))
    requires n < |Final(s, steps).nodes|
    ensures var f := Final(s, steps);
            f.history != [] && (f.nodes[n].pool == GroupsOf(StoreOf(f)) <==> f.nodes[n].told || StoreOf(f) == map[])
  {
    RunUntold(s, steps);
    WatcherConvergence(s, steps);
    assert GroupsOf(map[]) == map[];
    GroupsOfInjective(map[], StoreOf(Final(s, steps)));
  }

  /** Convergence of all nodes, those that joined included, over runs of any length. */
  lemma AllCurrentIff(s: State, steps: seq<Step>)
    requires Initial(s) && ValidRun(s, steps) && WatchersOnly(steps) && Quiescent(Final(s, steps))
    ensures var f := Final(s, steps);
            && f.history != []
            && ((forall n :: 0 <= n < |f.nodes| ==> f.nodes[n].pool == GroupsOf(StoreOf(f))) <==>
                StoreOf(f) == map[] || forall n :: 0 <= n < |f.nodes| ==> f.nodes[n].told)
  {
    var f := Final(s, steps);
    WatcherConvergence(s, steps);
    forall n | 0 <= n < |f.nodes|
      ensures f.nodes[n].pool == GroupsOf(StoreOf(f)) <==> f.nodes[n].told || StoreOf(f) == map[]
    {
      NodeIsCurrentIff(s, steps, n);
    }
  }

  ghost predicate Heard(node: Node) {
    node.told || node.inbox > 0
  }

  ghost predicate SomePublish(steps: seq<Step>) {
    exists i :: 0 <= i < |steps| && steps[i].Publish?
  }

  /** A node hears exactly of what is published while it is there. */
  lemma {:induction false} HeardIff(s: State, steps: seq<Step>, n: nat)
    requires ValidRun(s, steps) && n < |s.nodes|
    ensures n < |Final(s, steps).nodes|
    ensures Heard(Final(s, steps).nodes[n]) <==> Heard(s.nodes[n]) || SomePublish(steps)
    decreases |steps|
  {
    if steps != [] {
      var s', rest := Apply(s, steps[0]), steps[1..];
      assert Heard(s'.nodes[n]) <==> Heard(s.nodes[n]) || steps[0].Publish?;
      HeardIff(s', rest, n);
      hide *;
      PublishFirst(steps);
    }
  }

  lemma PublishFirst(steps: seq<Step>)
    requires steps != []
    ensures SomePublish(steps) <==> steps[0].Publish? || SomePublish(steps[1..])
  {
    if i :| 0 <= i < |steps| && steps[i].Publish? {
      assert i > 0 ==> steps[1..][i - 1].Publish?;
    }
    if i :| 0 <= i < |steps[1..]| && steps[1..][i].Publish? {
      assert steps[i + 1].Publish?;
    }
  }

  /** A node that joins at any moment of any run loads nothing until its first notification:
      whenever the system comes to rest it is current if and only if something was published
      since it joined, or the store is empty. */
  lemma JoinerIsCurrentIff(s: State, before: seq<Step>, after: seq<Step>)
    requires Initial(s) && ValidRun(s, before) && WatchersOnly(before) && WatchersOnly(after)
    requires Enabled(Final(s, before), Join) && ValidRun(Apply(Final(s, before), Join), after)
    requires Quiescent(Final(Apply(Final(s, before), Join), after))
    ensures var n := |Final(s, before).nodes|;
            var f := Final(Apply(Final(s, before), Join), after);
            && n < |f.nodes| && f.history != []
            && (f.nodes[n].pool == GroupsOf(StoreOf(f)) <==> SomePublish(after) || StoreOf(f) == map[])
  {
    var c := Final(s, before);
    var n, joined := |c.nodes|, Apply(c, Join);
    HeardIff(joined, after, n);
    assert !Heard(joined.nodes[n]);
    var tail := Prepend(c, Join, after);
    RunConcat(s, before, tail);
    assert WatchersOnly(before + tail);
    NodeIsCurrentIff(s, before + tail, n);
  }

  // ---- exactly when convergence is lost ----

  /** No write and no ticker: what is under way is delivered, and watchers reload. */
  ghost predicate Settling(steps: seq<Step>) {
    forall i :: 0 <= i < |steps| ==>
      !steps[i].Put? && !steps[i].Del? && !steps[i].TickLoad? && !steps[i].TickPurge?
  }

  /** Left to its watchers, the system can come to rest, and whenever it does it has converged. */
  ghost predicate Recovers(s: State) {
    && CanRest(s)
    && forall rest :: ValidRun(s, rest) && Settling(rest) && Quiescent(Final(s, rest)) ==>
         Final(s, rest).history != [] && Converged(Final(s, rest))
  }

  ghost predicate CanRest(s: State) {
    exists rest :: ValidRun(s, rest) && Settling(rest) && Quiescent(Final(s, rest))
  }

  lemma Prepend(s: State, step: Step, rest: seq<Step>) returns (steps: seq<Step>)
    requires Enabled(s, step) && ValidRun(Apply(s, step), rest)
    ensures steps == [step] + rest && ValidRun(s, steps) && Final(s, steps) == Final(Apply(s, step), rest)
  {
    steps := [step] + rest;
    assert steps[1..] == rest;
  }

  /** A watcher's step, one of consuming, loading and swapping. */
  ghost predicate Watching(step: Step) {
    step.Consume? || step.Load? || step.Purge?
  }

  lemma WatchingChanges(s: State, step: Step)
    requires Enabled(s, step) && Watching(step)
    ensures var s' := Apply(s, step);
            && step.n < |s.nodes| == |s'.nodes| && s'.history == s.history && s'.publishing == s.publishing
            && forall m :: 0 <= m < |s.nodes| && m != step.n ==> s'.nodes[m] == s.nodes[m]
  {
  }

  /** No watcher finds its way back by itself: a node that is behind and owed nothing stays
      behind while watchers work. */
  lemma WatchingStaysLost(s: State, step: Step)
    requires Versioned(s) && !AllCaught(s) && Enabled(s, step) && Watching(step)
    ensures Versioned(Apply(s, step)) && !AllCaught(Apply(s, step))
  {
    StepVersioned(s, step);
    WatchingChanges(s, step);
    hide Versioned, GroupsOf, Group, Pick, Lists;
    var n :| 0 <= n < |s.nodes| && !Caught(s, s.nodes[n]);
    if step.n == n {
      assert step.Purge?;
      PurgeStaysLost(s, n, step.order);
    } else {
      SameNodeStaysLost(s, Apply(s, step), n);
    }
  }

  lemma SameNodeStaysLost(s: State, s': State, n: nat)
    requires s.history == s'.history != [] && s'.publishing == s.publishing
    requires n < |s.nodes| && n < |s'.nodes| && s'.nodes[n] == s.nodes[n] && !Caught(s, s.nodes[n])
    ensures !Caught(s', s'.nodes[n])
  {
  }

  lemma PurgeStaysLost(s: State, n: nat, order: seq<UUID>)
    requires Versioned(s) && Enabled(s, Purge(n, order)) && !Caught(s, s.nodes[n])
    ensures !Caught(Apply(s, Purge(n, order)), Apply(s, Purge(n, order)).nodes[n])
  {
    var node := s.nodes[n];
    assert NodeVersioned(s.history, node);
    hide Versioned, NodeVersioned, GroupsOf, Group, Pick, Lists;
    StaleInstall(s, node, node.watcher.snap, order);
  }

  lemma StaleInstall(s: State, node: Node, snap: Snapshot, order: seq<UUID>)
    requires s.history != [] && OneVersion(s.history, snap) && OwnKeys(snap.data) && Lists(order, snap.data.Keys)
    requires snap.data != StoreOf(s)
    ensures Install(node, snap, order).pool != GroupsOf(StoreOf(s))
  {
    InstallVersioned(s.history, node, snap, order);
    GroupsOfInjective(snap.data, StoreOf(s));
  }

  /** How far a node's watcher is from rest. */
  ghost function Work(node: Node): nat {
    3 * node.inbox + match node.watcher
                     case Idle => 0
                     case Loaded(_) => 1
                     case Notified => 2
  }

  /** The next step of a watcher that is not at rest. */
  lemma NextStep(s: State, n: nat) returns (step: Step)
    requires s.history != [] && n < |s.nodes| && Work(s.nodes[n]) > 0
    ensures Watching(step) && Enabled(s, step)
    ensures var s' := Apply(s, step);
            && s'.publishing == s.publishing && s'.history == s.history && |s'.nodes| == |s.nodes|
            && (forall m :: 0 <= m < |s.nodes| && m != n ==> s'.nodes[m] == s.nodes[m])
            && Work(s'.nodes[n]) < Work(s.nodes[n])
  {
    match s.nodes[n].watcher
    case Idle => step := Consume(n);
    case Notified => step := Load(n);
    case Loaded(snap) =>
      var order := ListingExists(snap.data.Keys);
      step := Purge(n, order);
  }

  ghost predicate AllWatching(steps: seq<Step>) {
    forall i :: 0 <= i < |steps| ==> Watching(steps[i])
  }

  /** Once everything is published, the watchers come to rest, one node after the other. */
  lemma {:induction false} Rest(s: State, n: nat) returns (steps: seq<Step>)
    requires s.history != [] && s.publishing == 0 && n <= |s.nodes|
    requires forall m :: 0 <= m < n ==> Work(s.nodes[m]) == 0
    ensures ValidRun(s, steps) && AllWatching(steps) && Quiescent(Final(s, steps))
    decreases |s.nodes| - n, if n < |s.nodes| then Work(s.nodes[n]) else 0
  {
    if n == |s.nodes| {
      steps := [];
      NoWorkIsRest(s);
    } else if Work(s.nodes[n]) == 0 {
      steps := Rest(s, n + 1);
    } else {
      var step := NextStep(s, n);
      hide *;
      var rest := Rest(Apply(s, step), n);
      steps := Prepend(s, step, rest);
      StillWatching(step, rest);
    }
  }

  lemma NoWorkIsRest(s: State)
    requires s.publishing == 0 && forall m :: 0 <= m < |s.nodes| ==> Work(s.nodes[m]) == 0
    ensures Quiescent(s)
  {
    assert forall m :: 0 <= m < |s.nodes| ==> Work(s.nodes[m]) == 0;
  }

  lemma StillWatching(step: Step, rest: seq<Step>)
    requires Watching(step) && AllWatching(rest)
    ensures AllWatching([step] + rest)
  {
  }

  lemma WatchingSettles(steps: seq<Step>)
    requires AllWatching(steps)
    ensures Settling(steps)
  {
    forall i | 0 <= i < |steps|
      ensures !steps[i].Put? && !steps[i].Del? && !steps[i].TickLoad? && !steps[i].TickPurge?
    {
      assert Watching(steps[i]);
    }
  }

  /** From every state, writers that only have to publish and the watchers can bring the system
      to rest. */
  lemma {:induction false} Settle(s: State) returns (steps: seq<Step>)
    requires s.history != []
    ensures ValidRun(s, steps) && Settling(steps) && Quiescent(Final(s, steps))
    decreases s.publishing
  {
    if s.publishing == 0 {
      steps := Rest(s, 0);
      WatchingSettles(steps);
    } else {
      var rest := Settle(Apply(s, Publish));
      hide *;
      steps := Prepend(s, Publish, rest);
      StillSettling(Publish, rest);
    }
  }

  lemma StillSettling(step: Step, rest: seq<Step>)
    requires step == Publish && Settling(rest)
    ensures Settling([step] + rest)
  {
  }

  lemma {:induction false} WatchingRunStaysLost(s: State, steps: seq<Step>)
    requires Versioned(s) && !AllCaught(s) && ValidRun(s, steps) && AllWatching(steps)
    ensures Versioned(Final(s, steps)) && !AllCaught(Final(s, steps))
    decreases |steps|
  {
    hide Versioned, AllCaught;
    if steps != [] {
      assert Watching(steps[0]);
      WatchingStaysLost(s, steps[0]);
      WatchingRunStaysLost(Apply(s, steps[0]), steps[1..]);
    }
  }

  /** Watchers bring a system that has lost track to rest, and it has not converged. */
  lemma Drain(s: State) returns (steps: seq<Step>)
    requires Versioned(s) && !AllCaught(s)
    ensures ValidRun(s, steps) && Settling(steps)
    ensures Quiescent(Final(s, steps)) && Final(s, steps).history != [] && !Converged(Final(s, steps))
  {
    LostIsPublished(s);
    hide AllCaught, Settling, AllWatching, Quiescent, Converged;
    steps := Rest(s, 0);
    WatchingSettles(steps);
    WatchingRunStaysLost(s, steps);
    RestIsLost(Final(s, steps));
  }

  lemma LostIsPublished(s: State)
    requires s.history != [] && !AllCaught(s)
    ensures s.publishing == 0
  {
    var n :| 0 <= n < |s.nodes| && !Caught(s, s.nodes[n]);
  }

  lemma RestIsLost(s: State)
    requires s.history != [] && !AllCaught(s) && Quiescent(s)
    ensures !Converged(s)
  {
    var n :| 0 <= n < |s.nodes| && !Caught(s, s.nodes[n]);
    assert s.nodes[n].told && s.nodes[n].pool != GroupsOf(StoreOf(s));
  }

  /** The invariant is no stronger than it must be: it holds exactly in the states from which
      the watchers, left alone, can come to rest and always end converged when they do. */
  lemma RecoversIff(s: State)
    requires Versioned(s)
    ensures Recovers(s) <==> AllCaught(s)
  {
    var some := Settle(s);
    assert CanRest(s);
    if AllCaught(s) {
      forall rest | ValidRun(s, rest) && Settling(rest) && Quiescent(Final(s, rest))
        ensures Final(s, rest).history != [] && Converged(Final(s, rest))
      {
        WatchersNeverOutdated(s, rest);
        RunCaught(s, rest);
        QuietIsConverged(Final(s, rest));
      }
    } else {
      var rest := Drain(s);
    }
  }

  lemma QuietIsConverged(s: State)
    requires s.history != [] && AllCaught(s) && Quiescent(s)
    ensures Converged(s)
  {
    forall n | 0 <= n < |s.nodes| && s.nodes[n].told ensures s.nodes[n].pool == GroupsOf(StoreOf(s)) {
      assert Caught(s, s.nodes[n]);
    }
  }

  lemma {:induction false} PrefixValid(s: State, steps: seq<Step>, k: nat)
    requires ValidRun(s, steps) && k <= |steps|
    ensures ValidRun(s, steps[..k])
    decreases k
  {
    if k > 0 {
      assert steps[..k][1..] == steps[1..][..k - 1];
      PrefixValid(Apply(s, steps[0]), steps[1..], k - 1);
    }
  }

  /** At every moment of the run, the watchers left alone can come to rest, and end converged. */
  ghost predicate AlwaysRecovers(s: State, steps: seq<Step>) {
    forall k :: 0 <= k <= |steps| && ValidRun(s, steps[..k]) ==> Recovers(Final(s, steps[..k]))
  }

  lemma AlwaysFrom(s: State, steps: seq<Step>)
    requires ValidRun(s, steps) && steps != []
    ensures AlwaysRecovers(s, steps) <==> Recovers(s) && AlwaysRecovers(Apply(s, steps[0]), steps[1..])
  {
    var s1, rest := Apply(s, steps[0]), steps[1..];
    assert steps[..0] == [];
    forall k | 0 <= k <= |rest|
      ensures steps[..k + 1][1..] == rest[..k]
      ensures ValidRun(s, steps[..k + 1]) && ValidRun(s1, rest[..k]) &&
              Final(s, steps[..k + 1]) == Final(s1, rest[..k])
    {
      PrefixValid(s, steps, k + 1);
      assert steps[..k + 1][1..] == rest[..k];
    }
    hide Recovers;
    if Recovers(s) && AlwaysRecovers(s1, rest) {
      forall k | 0 <= k <= |steps| && ValidRun(s, steps[..k]) ensures Recovers(Final(s, steps[..k])) {
        if k > 0 {
          var j := k - 1;
          assert steps[..j + 1][1..] == rest[..j];
          assert Recovers(Final(s1, rest[..j]));
        }
      }
    }
  }

  /** Convergence with the ticker, exactly: over any run of any number of nodes, the system
      can be left to its watchers at every moment if and only if no ticker ever installs an
      outdated load on a node that is owed no refresh. */
  lemma ConvergenceIff(s: State, steps: seq<Step>)
    requires Initial(s) && ValidRun(s, steps)
    ensures AlwaysRecovers(s, steps) <==> NeverOutdated(s, steps)
  {
    InitialCaught(s);
    AlwaysIff(s, steps);
  }

  lemma {:induction false} AlwaysIff(s: State, steps: seq<Step>)
    requires Versioned(s) && AllCaught(s) && ValidRun(s, steps)
    ensures AlwaysRecovers(s, steps) <==> NeverOutdated(s, steps)
    decreases |steps|
  {
    RecoversIff(s);
    if steps == [] {
      assert forall k :: 0 <= k <= |steps| ==> steps[..k] == [];
    } else {
      var s1, rest := Apply(s, steps[0]), steps[1..];
      AlwaysFrom(s, steps);
      StepVersioned(s, steps[0]);
      StepCaughtIff(s, steps[0]);
      if AllCaught(s1) {
        AlwaysIff(s1, rest);
      } else {
        RecoversIff(s1);
        AlwaysStart(s1, rest);
      }
    }
  }

  lemma AlwaysStart(s: State, steps: seq<Step>)
    ensures AlwaysRecovers(s, steps) ==> Recovers(s)
  {
    assert steps[..0] == [];
    if AlwaysRecovers(s, steps) {
      assert Recovers(Final(s, steps[..0]));
    }
  }

  /** Node n is owed nothing and at rest, with an outdated ticker load in flight. */
  ghost predicate Straddled(s: State, n: nat) {
    && s.history != [] && n < |s.nodes|
    && var node := s.nodes[n];
       node.told && !Owed(s, node) && node.watcher.Idle? && node.ticker.Some? && node.ticker.value.data != StoreOf(s)
  }

  /** A notified watcher reloads; the ticker's load stays in flight. */
  lemma React(s: State, n: nat) returns (steps: seq<Step>)
    requires s.history != [] && s.publishing == 0 && n < |s.nodes| && s.nodes[n].inbox == 1 && s.nodes[n].watcher.Idle?
    requires s.nodes[n].ticker.Some? && s.nodes[n].ticker.value.data != StoreOf(s)
    ensures ValidRun(s, steps) && Straddled(Final(s, steps), n)
  {
    hide GroupsOf, Group, Pick;
    var s1 := Apply(s, Consume(n));
    var s2 := Apply(s1, Load(n));
    var order := ListingExists(StoreOf(s2).Keys);
    assert s2.nodes[n].watcher == Loaded(Read(s));
    steps := Prepend(s2, Purge(n, order), []);
    steps := Prepend(s1, Load(n), steps);
    steps := Prepend(s, Consume(n), steps);
  }

  /** The ticker loads, the store changes, and the watcher reacts to the notification. */
  lemma Straddle(s: State, write: Step, n: nat) returns (steps: seq<Step>)
    requires Initial(s) && n < |s.nodes|
    requires Writes(write) && StoreOf(Apply(s, write)) != StoreOf(s)
    ensures ValidRun(s, steps) && Straddled(Final(s, steps), n)
  {
    hide GroupsOf, Straddled;
    var s1 := Apply(s, TickLoad(n));
    var s2 := Apply(s1, write);
    steps := React(Apply(s2, Publish), n);
    steps := Prepend(s2, Publish, steps);
    steps := Prepend(s1, write, steps);
    steps := Prepend(s, TickLoad(n), steps);
  }

  lemma TickPurgeLoses(s: State, n: nat, order: seq<UUID>)
    requires Versioned(s) && Straddled(s, n) && Enabled(s, TickPurge(n, order))
    ensures !AllCaught(Apply(s, TickPurge(n, order)))
  {
    hide Versioned, NodeVersioned, GroupsOf, Group, Pick, Lists;
    TickIsVersioned(s, n);
    StaleInstall(s, s.nodes[n], s.nodes[n].ticker.value, order);
    var s' := Apply(s, TickPurge(n, order));
    assert !Caught(s', s'.nodes[n]);
  }

  lemma TickIsVersioned(s: State, n: nat)
    requires Versioned(s) && n < |s.nodes| && s.nodes[n].ticker.Some?
    ensures OneVersion(s.history, s.nodes[n].ticker.value) && OwnKeys(s.nodes[n].ticker.value.data)
  {
    assert NodeVersioned(s.history, s.nodes[n]);
  }

  /** The losing run exists in every system that writes: on any node of any number, a ticker
      load that straddles one change of the store undoes it, and the watchers bring the
      system to rest with that node behind. */
  lemma TickerUndoesWrite(s: State, write: Step, n: nat) returns (steps: seq<Step>)
    requires Initial(s) && n < |s.nodes|
    requires Writes(write) && StoreOf(Apply(s, write)) != StoreOf(s)
    ensures ValidRun(s, steps)
    ensures Quiescent(Final(s, steps)) && Final(s, steps).history != [] && !Converged(Final(s, steps))
  {
    InitialCaught(s);
    var first := Straddle(s, write, n);
    RunVersioned(s, first);
    var mid := Final(s, first);
    var order := ListingExists(mid.nodes[n].ticker.value.data.Keys);
    var lost := Apply(mid, TickPurge(n, order));
    TickPurgeLoses(mid, n, order);
    StepVersioned(mid, TickPurge(n, order));
    hide *;
    var rest := Drain(lost);
    rest := Prepend(mid, TickPurge(n, order), rest);
    steps := first + rest;
    RunConcat(s, first, rest);
  }

  // ---- stability after the last write ----

  /** The node's pool is current and every load in flight began after the last write. */
  ghost predicate Settled(s: State, n: nat)
    requires s.history != []
  {
    && n < |s.nodes|
    && var node, last := s.nodes[n], |s.history| - 1;
       && node.pool == GroupsOf(StoreOf(s))
       && (node.watcher.Loaded? ==> node.watcher.snap.at == last)
       && (node.ticker.Some? ==> node.ticker.value.at == last)
  }

  lemma PurgeStaysSettled(s: State, n: nat, order: seq<UUID>)
    requires Versioned(s) && Settled(s, n) && Enabled(s, Purge(n, order))
    ensures Settled(Apply(s, Purge(n, order)), n)
  {
    assert NodeVersioned(s.history, s.nodes[n]);
    InstallVersioned(s.history, s.nodes[n], s.nodes[n].watcher.snap, order);
    hide GroupsOf, Group, Pick, Lists, Versioned;
  }

  lemma TickPurgeStaysSettled(s: State, n: nat, order: seq<UUID>)
    requires Versioned(s) && Settled(s, n) && Enabled(s, TickPurge(n, order))
    ensures Settled(Apply(s, TickPurge(n, order)), n)
  {
    assert NodeVersioned(s.history, s.nodes[n]);
    InstallVersioned(s.history, s.nodes[n], s.nodes[n].ticker.value, order);
    hide GroupsOf, Group, Pick, Lists, Versioned;
  }

  /** A node with the same pool and the same or a new load stays settled. */
  lemma SamePoolStaysSettled(s: State, s': State, n: nat)
    requires s.history != [] && s'.history == s.history && Settled(s, n) && n < |s'.nodes|
    requires s'.nodes[n].pool == s.nodes[n].pool
    requires s'.nodes[n].watcher == s.nodes[n].watcher || !s'.nodes[n].watcher.Loaded? ||
             s'.nodes[n].watcher.snap == Read(s)
    requires s'.nodes[n].ticker == s.nodes[n].ticker || s'.nodes[n].ticker == Some(Read(s))
    ensures Settled(s', n)
  {
  }

  lemma StepStaysSettled(s: State, step: Step, n: nat)
    requires Versioned(s) && Enabled(s, step) && !Writes(step) && Settled(s, n)
    ensures Settled(Apply(s, step), n) && Apply(s, step).history == s.history
  {
    hide GroupsOf, Group, Pick, Lists, Versioned;
    if step.Join? {
      assert Apply(s, step).nodes[n] == s.nodes[n];
    } else if step.Purge? && step.n == n {
      PurgeStaysSettled(s, n, step.order);
    } else if step.TickPurge? && step.n == n {
      TickPurgeStaysSettled(s, n, step.order);
    } else {
      assert n < |s.nodes|;
      SamePoolStaysSettled(s, Apply(s, step), n);
    }
  }

  /** Once the store is quiet, a settled node stays current for ever: no consume, load,
      purge or tick of any node makes its pool stale. */
  lemma {:induction false} QuietRunStaysCurrent(s: State, steps: seq<Step>, n: nat)
    requires Versioned(s) && ValidRun(s, steps) && Settled(s, n)
    requires forall i :: 0 <= i < |steps| ==> !Writes(steps[i])
    ensures Final(s, steps).history == s.history
    ensures Settled(Final(s, steps), n)
    decreases |steps|
  {
    if steps != [] {
      StepVersioned(s, steps[0]);
      StepStaysSettled(s, steps[0], n);
      QuietRunStaysCurrent(Apply(s, steps[0]), steps[1..], n);
    }
  }
}
