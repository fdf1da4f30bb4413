/** runner/static/static.go and runner/options.go: workers over one Go channel.

    Start spawns goroutines that read the channel field when they get to it, which may be
    after Stop has cleared it; Task blocks until the channel takes its task. A channel send
    succeeds into free buffer space or straight into a worker waiting on an empty channel,
    which is the only way when the capacity is 0. */
module StaticRunner {

  type TaskId = nat

  /** What a worker goroutine is doing. `Stuck` ranges over a nil channel for ever. */
  datatype Worker = Spawned | Waiting | Working(task: TaskId) | Exited | Stuck

  /** `buffer`, `capacity` and `closed` are the channel; `open` says whether the runner's
      field still refers to it. `sending` is the task of a Task call that is blocked in its
      send. The three histories list tasks in the order they were accepted by the channel,
      taken from it, and finished; `handled` lists the calls of the handler, if there is one. */
  datatype State = State(
    capacity: nat, buffer: seq<TaskId>, closed: bool, open: bool,
    sending: seq<TaskId>, workers: seq<Worker>, handler: bool,
    accepted: seq<TaskId>, taken: seq<TaskId>, finished: seq<TaskId>, handled: seq<TaskId>)

  datatype Step =
    | Start(threads: nat)
    | Stop
    | Task(t: TaskId)
    | Enqueue(i: nat)
    | Handoff(i: nat, w: nat)
    | Capture(w: nat)
    | Take(w: nat)
    | Finish(w: nat)
    | Exit(w: nat)

  predicate WorkerIs(s: State, w: nat, x: Worker) {
    w < |s.workers| && s.workers[w] == x
  }

  /** Stop is not concurrent with a blocked Task: closing the channel under a sender panics. */
  predicate Enabled(s: State, step: Step) {
    match step
    case Start(_) => true
    case Stop => s.sending == []
    case Task(_) => true
    case Enqueue(i) => i < |s.sending| && |s.buffer| < s.capacity
    case Handoff(i, w) => i < |s.sending| && s.buffer == [] && WorkerIs(s, w, Waiting)
    case Capture(w) => WorkerIs(s, w, Spawned)
    case Take(w) => s.buffer != [] && WorkerIs(s, w, Waiting)
    case Finish(w) => w < |s.workers| && s.workers[w].Working?
    case Exit(w) => s.closed && s.buffer == [] && WorkerIs(s, w, Waiting)
  }

  function Without<T>(q: seq<T>, i: nat): seq<T>
    requires i < |q|
  {
    q[..i] + q[i + 1..]
  }

  function Apply(s: State, step: Step): State
    requires Enabled(s, step)
  {
    match step
    case Start(threads) => s.(workers := s.workers + seq(threads, i => Spawned))
    case Stop => s.(open := false, closed := s.closed || s.open)
    case Task(t) => if s.open then s.(sending := s.sending + [t]) else s
    case Enqueue(i) =>
      s.(sending := Without(s.sending, i), buffer := s.buffer + [s.sending[i]], accepted := s.accepted + [s.sending[i]])
    case Handoff(i, w) =>
      s.(sending := Without(s.sending, i), workers := s.workers[w := Working(s.sending[i])],
         accepted := s.accepted + [s.sending[i]], taken := s.taken + [s.sending[i]])
    case Capture(w) => s.(workers := s.workers[w := if s.open then Waiting else Stuck])
    case Take(w) =>
      s.(buffer := s.buffer[1..], workers := s.workers[w := Working(s.buffer[0])], taken := s.taken + [s.buffer[0]])
    case Finish(w) =>
      var t := s.workers[w].task;
      s.(workers := s.workers[w := Waiting], finished := s.finished + [t],
         handled := if s.handler then s.handled + [t] else s.handled)
    case Exit(w) => s.(workers := s.workers[w := Exited])
  }

  predicate Initial(s: State) {
    && s.buffer == s.accepted == s.taken == s.finished == s.handled == s.sending == []
    && s.workers == [] && s.open && !s.closed
  }

  function Holds(w: Worker, t: TaskId): nat {
    if w == Working(t) then 1 else 0
  }

  /** How many workers are handling task t. */
  function InHand(workers: seq<Worker>, t: TaskId): nat {
    if workers == [] then 0
    else InHand(workers[..|workers| - 1], t) + Holds(workers[|workers| - 1], t)
  }

  /** The worker reached its loop while the field still held the channel. */
  predicate Captured(w: Worker) {
    w.Waiting? || w.Working? || w.Exited?
  }

  ghost predicate SomeCaptured(s: State) {
    exists w :: 0 <= w < |s.workers| && Captured(s.workers[w])
  }

  /** Every task taken is in a worker's hands or finished, each as often as it was taken. */
  ghost predicate Accounted(taken: seq<TaskId>, workers: seq<Worker>, finished: seq<TaskId>) {
    forall t :: multiset(taken)[t] == InHand(workers, t) + multiset(finished)[t]
  }

  /** Conservation, order and capacity. */
  ghost predicate Conserved(s: State) {
    && s.accepted == s.taken + s.buffer
    && Accounted(s.taken, s.workers, s.finished)
    && s.handled == (if s.handler then s.finished else [])
    && |s.buffer| <= s.capacity
  }

  /** What closing, exiting and taking say about each other. */
  ghost predicate Ordered(s: State) {
    && s.closed == !s.open
    && (s.closed ==> s.sending == [])
    && (forall w :: 0 <= w < |s.workers| && s.workers[w].Exited? ==> s.closed && s.buffer == [])
    && (s.taken != [] ==> exists w :: 0 <= w < |s.workers| && Captured(s.workers[w]))
  }

  lemma {:induction false} InHandUpdate(workers: seq<Worker>, w: nat, x: Worker)
    requires w < |workers|
    ensures forall t :: InHand(workers[w := x], t) + Holds(workers[w], t) == InHand(workers, t) + Holds(x, t)
  {
    var n := |workers| - 1;
    if w == n {
      assert workers[w := x][..n] == workers[..n];
    } else {
      assert workers[w := x][..n] == workers[..n][w := x];
      InHandUpdate(workers[..n], w, x);
    }
  }

  lemma {:induction false} InHandSpawn(workers: seq<Worker>, n: nat)
    ensures forall t :: InHand(workers + seq(n, i => Spawned), t) == InHand(workers, t)
  {
    var all := workers + seq(n, i => Spawned);
    if n == 0 {
      assert all == workers;
    } else {
      assert all[..|all| - 1] == workers + seq(n - 1, i => Spawned);
      InHandSpawn(workers, n - 1);
    }
  }

  /** What the channel was given: the tasks it accepted and those still being sent. */
  ghost function Entered(s: State): multiset<TaskId> {
    multiset(s.accepted) + multiset(s.sending)
  }

  lemma TakeOut<T>(q: seq<T>, i: nat)
    requires i < |q|
    ensures multiset(Without(q, i)) + multiset{q[i]} == multiset(q)
  {
    assert q == q[..i] + [q[i]] + q[i + 1..];
  }

  /** Only Task, on an open channel, brings tasks in; a sender's turn brings in its own task. */
  lemma StepEnters(s: State, step: Step)
    requires Enabled(s, step)
    ensures Entered(Apply(s, step)) == Entered(s) + if step.Task? && s.open then multiset{step.t} else multiset{}
  {
    match step
    case Enqueue(i) => SenderEnters(s, i);
    case Handoff(i, _) => SenderEnters(s, i);
    case _ =>
  }

  lemma SenderEnters(s: State, i: nat)
    requires i < |s.sending|
    ensures multiset(s.accepted + [s.sending[i]]) + multiset(Without(s.sending, i)) == Entered(s)
  {
    TakeOut(s.sending, i);
    assert multiset(s.accepted + [s.sending[i]]) == multiset(s.accepted) + multiset{s.sending[i]};
  }

  lemma StepKeepsConserved(s: State, step: Step)
    requires Conserved(s) && Enabled(s, step)
    ensures Conserved(Apply(s, step))
    ensures Entered(Apply(s, step)) == Entered(s) + if step.Task? && s.open then multiset{step.t} else multiset{}
  {
    hide *;
    StepMoves(s, step);
    StepEnters(s, step);
  }

  lemma StepMoves(s: State, step: Step)
    requires Conserved(s) && Enabled(s, step)
    ensures Conserved(Apply(s, step))
  {
    match step
    case Start(threads) => InHandSpawn(s.workers, threads);
    case Handoff(i, w) => HandoffKeepsConserved(s, i, w);
    case Capture(w) => InHandUpdate(s.workers, w, if s.open then Waiting else Stuck);
    case Take(w) => TakeKeepsConserved(s, w);
    case Finish(w) => FinishKeepsConserved(s, w);
    case Exit(w) => InHandUpdate(s.workers, w, Exited);
    case _ =>
  }

  lemma OneMoreTaken(taken: seq<TaskId>, workers: seq<Worker>, finished: seq<TaskId>, w: nat, x: TaskId)
    requires Accounted(taken, workers, finished) && w < |workers| && workers[w] == Waiting
    ensures Accounted(taken + [x], workers[w := Working(x)], finished)
  {
    InHandUpdate(workers, w, Working(x));
    hide InHand;
    assert multiset(taken + [x]) == multiset(taken) + multiset{x};
  }

  lemma OneMoreFinished(taken: seq<TaskId>, workers: seq<Worker>, finished: seq<TaskId>, w: nat, x: TaskId)
    requires Accounted(taken, workers, finished) && w < |workers| && workers[w] == Working(x)
    ensures Accounted(taken, workers[w := Waiting], finished + [x])
  {
    InHandUpdate(workers, w, Waiting);
    hide InHand;
    assert multiset(finished + [x]) == multiset(finished) + multiset{x};
  }

  lemma HandoffKeepsConserved(s: State, i: nat, w: nat)
    requires Conserved(s) && Enabled(s, Handoff(i, w))
    ensures Conserved(Apply(s, Handoff(i, w)))
  {
    OneMoreTaken(s.taken, s.workers, s.finished, w, s.sending[i]);
    hide Accounted;
  }

  lemma FinishKeepsConserved(s: State, w: nat)
    requires Conserved(s) && Enabled(s, Finish(w))
    ensures Conserved(Apply(s, Finish(w)))
  {
    OneMoreFinished(s.taken, s.workers, s.finished, w, s.workers[w].task);
    hide Accounted;
  }

  lemma MoveFirst<T>(a: seq<T>, b: seq<T>)
    requires b != []
    ensures (a + [b[0]]) + b[1..] == a + b
  {
  }

  lemma TakeKeepsConserved(s: State, w: nat)
    requires Conserved(s) && Enabled(s, Take(w))
    ensures Conserved(Apply(s, Take(w)))
  {
    OneMoreTaken(s.taken, s.workers, s.finished, w, s.buffer[0]);
    hide Accounted;
    MoveFirst(s.taken, s.buffer);
  }

  lemma StepKeepsOrdered(s: State, step: Step)
    requires Ordered(s) && Enabled(s, step)
    ensures Ordered(Apply(s, step))
  {
    var s' := Apply(s, step);
    if s.taken != [] {
      var w :| 0 <= w < |s.workers| && Captured(s.workers[w]);
      assert Captured(s'.workers[w]);
    }
    match step
    case Handoff(i, w) => assert Captured(s'.workers[w]);
    case Take(w) => assert Captured(s'.workers[w]);
    case _ =>
  }

  predicate ValidRun(s: State, steps: seq<Step>)
    decreases |steps|
  {
    steps == [] || (Enabled(s, steps[0]) && ValidRun(Apply(s, steps[0]), steps[1..]))
  }

  function Final(s: State, steps: seq<Step>): State
    requires ValidRun(s, steps)
    decreases |steps|
  {
    if steps == [] then s else Final(Apply(s, steps[0]), steps[1..])
  }

  lemma {:induction false} RunKeeps(s: State, steps: seq<Step>)
    requires Conserved(s) && Ordered(s) && ValidRun(s, steps)
    ensures Conserved(Final(s, steps)) && Ordered(Final(s, steps))
    decreases |steps|
  {
    if steps != [] {
      StepKeepsConserved(s, steps[0]);
      StepKeepsOrdered(s, steps[0]);
      RunKeeps(Apply(s, steps[0]), steps[1..]);
    }
  }

  lemma FromInitial(s: State, steps: seq<Step>)
    requires Initial(s) && ValidRun(s, steps)
    ensures Conserved(Final(s, steps)) && Ordered(Final(s, steps))
  {
    RunKeeps(s, steps);
  }

  // ---- what a run submits, read off its steps ----

  lemma {:induction false} LastStep(s: State, init: seq<Step>, last: Step)
    requires ValidRun(s, init + [last])
    ensures ValidRun(s, init) && Enabled(Final(s, init), last)
    ensures Final(s, init + [last]) == Apply(Final(s, init), last)
    decreases |init|
  {
    var steps := init + [last];
    if init == [] {
      assert steps[0] == last && steps[1..] == [];
    } else {
      assert steps[0] == init[0] && steps[1..] == init[1..] + [last];
      LastStep(Apply(s, init[0]), init[1..], last);
    }
  }

  /** Stop is not among the first i steps. */
  predicate BeforeStop(steps: seq<Step>, i: nat)
    requires i <= |steps|
  {
    forall j :: 0 <= j < i ==> !steps[j].Stop?
  }

  /** The calls of Task with task t before the first Stop, by their position in the run. */
  ghost function Submissions(steps: seq<Step>, t: TaskId): set<nat> {
    set i: nat | i < |steps| && steps[i] == Task(t) && BeforeStop(steps, i)
  }

  /** Some worker gets to the channel before the first Stop. */
  ghost predicate CapturesInTime(steps: seq<Step>) {
    exists i :: 0 <= i < |steps| && steps[i].Capture? && BeforeStop(steps, i)
  }

  lemma PrefixBeforeStop(init: seq<Step>, last: Step)
    ensures forall i :: 0 <= i <= |init| ==> (BeforeStop(init + [last], i) <==> BeforeStop(init, i))
    ensures BeforeStop(init + [last], |init| + 1) <==> BeforeStop(init, |init|) && !last.Stop?
  {
    assert forall i :: 0 <= i < |init| ==> (init + [last])[i] == init[i];
    assert (init + [last])[|init|] == last;
  }

  lemma SubmissionsNext(init: seq<Step>, last: Step, t: TaskId)
    ensures |Submissions(init + [last], t)| ==
            |Submissions(init, t)| + if last == Task(t) && BeforeStop(init, |init|) then 1 else 0
  {
    PrefixBeforeStop(init, last);
    var before, after, n := Submissions(init, t), Submissions(init + [last], t), |init|;
    assert forall i: nat :: i < n ==> (init + [last])[i] == init[i];
    hide BeforeStop;
    assert n !in before;
    assert after == if last == Task(t) && BeforeStop(init, n) then before + {n} else before;
  }

  lemma CapturesNext(init: seq<Step>, last: Step)
    ensures CapturesInTime(init + [last]) <==> CapturesInTime(init) || (last.Capture? && BeforeStop(init, |init|))
  {
    PrefixBeforeStop(init, last);
    var all, n := init + [last], |init|;
    assert all[n] == last && forall i :: 0 <= i < n ==> all[i] == init[i];
    hide BeforeStop;
    if i :| 0 <= i < |init| && init[i].Capture? && BeforeStop(init, i) {
      assert all[i].Capture? && BeforeStop(all, i);
    }
    if last.Capture? && BeforeStop(init, n) {
      assert all[n].Capture? && BeforeStop(all, n);
    }
  }

  lemma StepCaptures(s: State, step: Step)
    requires Enabled(s, step)
    ensures SomeCaptured(Apply(s, step)) <==> SomeCaptured(s) || (step.Capture? && s.open)
  {
    var s' := Apply(s, step);
    if w :| 0 <= w < |s.workers| && Captured(s.workers[w]) {
      assert Captured(s'.workers[w]);
    }
    if step.Capture? && s.open {
      assert Captured(s'.workers[step.w]);
    }
    if w :| 0 <= w < |s'.workers| && Captured(s'.workers[w]) {
      assert (w < |s.workers| && Captured(s.workers[w])) || (step.Capture? && s.open);
    }
  }

  /** Over every run: the field refers to the channel until the first Stop; each task was
      accepted or is being sent exactly as often as it was submitted by then; a worker has
      captured the channel if and only if one got to it by then. */
  lemma {:induction false} AsSubmitted(s: State, steps: seq<Step>)
    requires Initial(s) && ValidRun(s, steps)
    ensures var f := Final(s, steps);
            && f.open == BeforeStop(steps, |steps|)
            && (forall t :: |Submissions(steps, t)| == multiset(f.accepted)[t] + multiset(f.sending)[t])
            && (SomeCaptured(f) <==> CapturesInTime(steps))
    decreases |steps|
  {
    if steps == [] {
      assert forall t :: Submissions([], t) == {};
    } else {
      var n := |steps| - 1;
      var init, last := steps[..n], steps[n];
      assert steps == init + [last];
      LastStep(s, init, last);
      AsSubmitted(s, init);
      SubmittedNext(s, Final(s, init), init, last);
    }
  }

  lemma SubmittedNext(s: State, c: State, init: seq<Step>, last: Step)
    requires Enabled(c, last) && c.open == BeforeStop(init, |init|)
    requires forall t :: |Submissions(init, t)| == Entered(c)[t]
    requires SomeCaptured(c) <==> CapturesInTime(init)
    ensures Apply(c, last).open == BeforeStop(init + [last], |init| + 1)
    ensures forall t :: |Submissions(init + [last], t)| == Entered(Apply(c, last))[t]
    ensures SomeCaptured(Apply(c, last)) <==> CapturesInTime(init + [last])
  {
    StepEnters(c, last);
    StepCaptures(c, last);
    PrefixBeforeStop(init, last);
    CapturesNext(init, last);
    hide Entered, SomeCaptured, CapturesInTime, Submissions, BeforeStop;
    forall t ensures |Submissions(init + [last], t)| == Entered(Apply(c, last))[t] {
      SubmissionsNext(init, last, t);
    }
  }

  /** Start adds its number of workers, and nothing takes one away. */
  lemma {:induction false} WorkersStarted(s: State, steps: seq<Step>)
    requires ValidRun(s, steps)
    ensures |Final(s, steps).workers| == |s.workers| + Threads(steps)
    decreases |steps|
  {
    if steps != [] {
      WorkersStarted(Apply(s, steps[0]), steps[1..]);
    }
  }

  function Threads(steps: seq<Step>): nat {
    if steps == [] then 0 else (if steps[0].Start? then steps[0].threads else 0) + Threads(steps[1..])
  }

  /** In every reachable state: the tasks submitted before the first Stop are being sent,
      queued, in a worker or finished, each as often as it was submitted; tasks leave the queue
      in the order they were accepted; the queue respects its capacity. */
  lemma Conservation(s: State, steps: seq<Step>)
    requires Initial(s) && ValidRun(s, steps)
    ensures var f := Final(s, steps);
            && (forall t :: |Submissions(steps, t)| ==
                            multiset(f.sending)[t] + multiset(f.buffer)[t] + InHand(f.workers, t) +
                            multiset(f.finished)[t])
            && (forall t :: multiset(f.accepted)[t] ==
                            multiset(f.buffer)[t] + InHand(f.workers, t) + multiset(f.finished)[t])
            && f.accepted == f.taken + f.buffer
            && |f.buffer| <= f.capacity
  {
    FromInitial(s, steps);
    AsSubmitted(s, steps);
    hide Submissions, InHand, ValidRun, Final;
  }

  /** Stop has been called and every worker that captured the channel has exited; workers that
      came too late wait for ever, or are still to be scheduled. */
  predicate Drained(s: State) {
    s.closed && forall w :: 0 <= w < |s.workers| ==> Resting(s.workers[w])
  }

  predicate Resting(w: Worker) {
    w.Exited? || w.Stuck? || w.Spawned?
  }

  lemma {:induction false} NobodyWorking(workers: seq<Worker>)
    requires forall w :: 0 <= w < |workers| ==> !workers[w].Working?
    ensures forall t :: InHand(workers, t) == 0
  {
    if workers != [] {
      NobodyWorking(workers[..|workers| - 1]);
    }
  }

  lemma PrefixIsAll<T>(a: seq<T>, b: seq<T>)
    ensures multiset(a) == multiset(a + b) <==> b == []
  {
    assert multiset(a + b) == multiset(a) + multiset(b);
    if b == [] {
      assert a + b == a;
    } else {
      assert b[0] in multiset(b);
    }
  }

  /** After Stop, once the workers that captured the channel have exited, every task submitted
      before Stop was handled exactly as often as it was submitted if and only if none was, or
      some worker got to the channel before Stop. Workers scheduled only after Stop find no
      channel, and then the tasks in the buffer are lost. */
  lemma DrainIff(s: State, steps: seq<Step>)
    requires Initial(s) && ValidRun(s, steps) && Drained(Final(s, steps))
    ensures var f := Final(s, steps);
            && (HandledOnce(f, steps) <==> NoneSubmitted(steps) || CapturesInTime(steps))
            && f.handled == if s.handler then f.finished else []
  {
    FromInitial(s, steps);
    AsSubmitted(s, steps);
    Fixed(s, steps);
    DrainedAsSubmitted(Final(s, steps), steps);
  }

  /** Each task was finished as often as it was submitted. */
  ghost predicate HandledOnce(f: State, steps: seq<Step>) {
    forall t :: multiset(f.finished)[t] == |Submissions(steps, t)|
  }

  ghost predicate NoneSubmitted(steps: seq<Step>) {
    forall t :: Submissions(steps, t) == {}
  }

  lemma DrainedAsSubmitted(f: State, steps: seq<Step>)
    requires Conserved(f) && Ordered(f) && Drained(f)
    requires forall t :: |Submissions(steps, t)| == multiset(f.accepted)[t]
    ensures HandledOnce(f, steps) <==> NoneSubmitted(steps) || SomeCaptured(f)
  {
    DrainedIff(f);
    ExitedIff(f);
    hide Submissions, Conserved, Ordered, Drained, SomeCaptured;
    if f.accepted != [] {
      assert |Submissions(steps, f.accepted[0])| > 0;
    }
  }

  lemma DrainedIff(f: State)
    requires Conserved(f) && Ordered(f) && Drained(f)
    ensures multiset(f.finished) == multiset(f.accepted) <==>
            f.accepted == [] || exists w :: 0 <= w < |f.workers| && f.workers[w].Exited?
  {
    NobodyWorking(f.workers);
    assert multiset(f.finished) == multiset(f.taken);
    PrefixIsAll(f.taken, f.buffer);
  }

  /** Once the channel is closed nothing is accepted, and whether some worker captured it is
      decided. */
  lemma {:induction false} DecidedOnceClosed(s: State, steps: seq<Step>)
    requires Ordered(s) && s.closed && ValidRun(s, steps)
    ensures var f := Final(s, steps);
            && f.accepted == s.accepted && f.closed
            && (SomeCaptured(f) <==> SomeCaptured(s))
    decreases |steps|
  {
    if steps != [] {
      StepKeepsOrdered(s, steps[0]);
      StepDecided(s, steps[0]);
      hide *;
      DecidedOnceClosed(Apply(s, steps[0]), steps[1..]);
    }
  }

  lemma StepDecided(s: State, step: Step)
    requires Ordered(s) && s.closed && Enabled(s, step)
    ensures var s' := Apply(s, step);
            s'.accepted == s.accepted && s'.closed && (SomeCaptured(s') <==> SomeCaptured(s))
  {
    var s' := Apply(s, step);
    if w :| 0 <= w < |s.workers| && Captured(s.workers[w]) {
      assert Captured(s'.workers[w]);
    } else if w :| 0 <= w < |s'.workers| && Captured(s'.workers[w]) {
      assert w < |s.workers| ==> !Captured(s.workers[w]);
    }
  }

  /** What the caller of Stop can tell: in the state in which it is called, every way to go on
      until the workers have exited handles each task submitted so far exactly as often as it
      was submitted if and only if none was, or some worker has got to the channel by then. */
  lemma DrainIffAtStop(s: State, steps: seq<Step>, rest: seq<Step>)
    requires Initial(s) && ValidRun(s, steps)
    requires var c := Final(s, steps);
             && c.open && Enabled(c, Stop) && ValidRun(Apply(c, Stop), rest)
             && Drained(Final(Apply(c, Stop), rest))
    ensures var c := Final(s, steps);
            var f := Final(Apply(c, Stop), rest);
            && f.accepted == c.accepted
            && (HandledOnce(f, steps) <==> NoneSubmitted(steps) || CapturesInTime(steps))
            && (multiset(f.finished) == multiset(f.accepted) <==> c.accepted == [] || SomeCaptured(c))
  {
    hide *;
    FromInitial(s, steps);
    AsSubmitted(s, steps);
    DrainFrom(Final(s, steps), steps, rest);
  }

  lemma DrainFrom(c: State, steps: seq<Step>, rest: seq<Step>)
    requires Conserved(c) && Ordered(c) && c.open && Enabled(c, Stop)
    requires ValidRun(Apply(c, Stop), rest) && Drained(Final(Apply(c, Stop), rest))
    requires forall t :: |Submissions(steps, t)| == multiset(c.accepted)[t] + multiset(c.sending)[t]
    ensures var f := Final(Apply(c, Stop), rest);
            && f.accepted == c.accepted
            && (HandledOnce(f, steps) <==> NoneSubmitted(steps) || SomeCaptured(c))
            && (multiset(f.finished) == multiset(f.accepted) <==> c.accepted == [] || SomeCaptured(c))
  {
    hide Conserved, Submissions, HandledOnce, NoneSubmitted, ValidRun, Final, Drained;
    var d := Apply(c, Stop);
    StepKeepsConserved(c, Stop);
    StepKeepsOrdered(c, Stop);
    RunKeeps(d, rest);
    DecidedOnceClosed(d, rest);
    var f := Final(d, rest);
    DrainedIff(f);
    ExitedIff(f);
    DrainedAsSubmitted(f, steps);
  }

  function Rank(w: Worker): nat {
    match w
    case Working(_) => 2
    case Waiting => 1
    case _ => 0
  }

  /** There always is such a way: the workers that captured the closed channel can finish. */
  lemma {:induction false} CanDrain(s: State, k: nat) returns (rest: seq<Step>)
    requires s.closed && k <= |s.workers| && forall w :: 0 <= w < k ==> Resting(s.workers[w])
    ensures ValidRun(s, rest) && Drained(Final(s, rest))
    decreases |s.workers| - k, if k < |s.workers| then 2 * |s.buffer| + Rank(s.workers[k]) else 0
  {
    if k == |s.workers| {
      rest := [];
    } else if Resting(s.workers[k]) {
      rest := CanDrain(s, k + 1);
    } else {
      var step :=
        if s.workers[k].Working? then Finish(k)
        else if s.buffer != [] then Take(k)
        else Exit(k);
      var tail := CanDrain(Apply(s, step), k);
      rest := Prepend(s, step, tail);
    }
  }

  lemma {:induction false} RunConcat(s: State, a: seq<Step>, b: seq<Step>)
    requires ValidRun(s, a) && ValidRun(Final(s, a), b)
    ensures ValidRun(s, a + b) && Final(s, a + b) == Final(Final(s, a), b)
    decreases |a|
  {
    if a == [] {
      assert a + b == b;
    } else {
      assert (a + b)[1..] == a[1..] + b;
      RunConcat(Apply(s, a[0]), a[1..], b);
    }
  }

  /** A blocked Task gets through, whichever it is: at once if the buffer has room, and otherwise
      by any one worker that captured the channel. */
  lemma {:induction false} GetsThrough(s: State, i: nat, w: nat) returns (steps: seq<Step>)
    requires |s.buffer| <= s.capacity && i < |s.sending|
    requires |s.buffer| < s.capacity || WorkerIs(s, w, Waiting) || (w < |s.workers| && s.workers[w].Working?)
    ensures ValidRun(s, steps)
    ensures var f := Final(s, steps);
            && f.sending == Without(s.sending, i) && f.accepted == s.accepted + [s.sending[i]]
            && f.open == s.open && (SomeCaptured(s) ==> SomeCaptured(f))
    decreases |s.buffer|, if w < |s.workers| && s.workers[w].Working? then 1 else 0
  {
    var step :=
      if |s.buffer| < s.capacity then Enqueue(i)
      else if s.workers[w].Working? then Finish(w)
      else if s.buffer == [] then Handoff(i, w)
      else Take(w);
    var s1 := Apply(s, step);
    StepCaptures(s, step);
    if step.Finish? {
      var rest := GetsThrough(s1, i, w);
      steps := Prepend(s, step, rest);
    } else if step.Take? {
      var rest := GetsThrough(s1, i, w);
      steps := Prepend(s, step, rest);
    } else {
      NoSteps(s1);
      steps := Prepend(s, step, []);
    }
  }

  lemma {:induction false} AllGetThrough(s: State) returns (steps: seq<Step>)
    requires Conserved(s) && Ordered(s) && s.open && SomeCaptured(s)
    ensures ValidRun(s, steps)
    ensures var f := Final(s, steps);
            && Conserved(f) && Ordered(f) && f.open && SomeCaptured(f)
            && f.sending == [] && Entered(f) == Entered(s)
    decreases |s.sending|
  {
    if s.sending == [] {
      NoSteps(s);
      steps := [];
    } else {
      var w :| 0 <= w < |s.workers| && Captured(s.workers[w]);
      var first := GetsThrough(s, 0, w);
      SenderEnters(s, 0);
      RunKeeps(s, first);
      hide Conserved, Ordered, SomeCaptured, ValidRun, Final;
      var rest := AllGetThrough(Final(s, first));
      steps := first + rest;
      RunConcat(s, first, rest);
    }
  }

  /** Nothing stands in the way of a proper end: as long as Stop was not called and some worker
      got to the channel, every run can go on, without a new task, until each task submitted was
      handled exactly as often as it was submitted and all workers are done. */
  lemma CanFinishAll(s: State, before: seq<Step>) returns (rest: seq<Step>)
    requires Initial(s) && ValidRun(s, before) && BeforeStop(before, |before|) && CapturesInTime(before)
    ensures ValidRun(s, before + rest)
    ensures var f := Final(s, before + rest); Drained(f) && HandledOnce(f, before)
  {
    FromInitial(s, before);
    AsSubmitted(s, before);
    var c := Final(s, before);
    rest := FinishFrom(c, before);
    RunConcat(s, before, rest);
  }

  lemma FinishFrom(c: State, before: seq<Step>) returns (steps: seq<Step>)
    requires Conserved(c) && Ordered(c) && c.open && SomeCaptured(c)
    requires forall t :: |Submissions(before, t)| == multiset(c.accepted)[t] + multiset(c.sending)[t]
    ensures ValidRun(c, steps)
    ensures var f := Final(c, steps); Drained(f) && HandledOnce(f, before)
  {
    hide Conserved, Ordered, SomeCaptured, ValidRun, Final, Submissions, HandledOnce, NoneSubmitted, Drained;
    var first := AllGetThrough(c);
    var d := Final(c, first);
    assert forall t :: multiset(d.accepted)[t] + multiset(d.sending)[t] == Entered(d)[t] == Entered(c)[t];
    ClosedByStop(d);
    var rest := CanDrain(Apply(d, Stop), 0);
    DrainFrom(d, before, rest);
    var tail := Prepend(d, Stop, rest);
    RunConcat(c, first, tail);
    steps := first + tail;
  }

  /** The runner never has to be waited for: after any run Start and Task can be called, and Stop
      whenever no Task is blocked. */
  lemma CallsAlwaysPossible(s: State, steps: seq<Step>, threads: nat, t: TaskId)
    requires ValidRun(s, steps)
    ensures ValidRun(s, steps + [Start(threads)]) && ValidRun(s, steps + [Task(t)])
    ensures Final(s, steps).sending == [] ==> ValidRun(s, steps + [Stop])
  {
    var c := Final(s, steps);
    OneStep(s, steps, Start(threads));
    OneStep(s, steps, Task(t));
    if c.sending == [] {
      OneStep(s, steps, Stop);
    }
  }

  lemma OneStep(s: State, steps: seq<Step>, step: Step)
    requires ValidRun(s, steps) && Enabled(Final(s, steps), step)
    ensures ValidRun(s, steps + [step])
  {
    hide Enabled, Apply;
    var one := Prepend(Final(s, steps), step, []);
    assert one == [step];
    RunConcat(s, steps, one);
  }

  lemma ClosedByStop(s: State)
    requires s.open && s.sending == []
    ensures Enabled(s, Stop) && Apply(s, Stop).closed
  {
  }

  lemma ExitedIff(f: State)
    requires Drained(f)
    ensures SomeCaptured(f) <==> exists w :: 0 <= w < |f.workers| && f.workers[w].Exited?
  {
  }

  /** The loss is real: a task is accepted, and Stop comes before the only worker runs. */
  lemma LateWorkerLosesTasks(s: State, t: TaskId) returns (steps: seq<Step>)
    requires Initial(s) && s.capacity > 0
    ensures ValidRun(s, steps) && Drained(Final(s, steps))
    ensures Final(s, steps).accepted == [t] && Final(s, steps).finished == []
  {
    var s1 := Apply(s, Start(1));
    var s2 := Apply(s1, Task(t));
    var s3 := Apply(s2, Enqueue(0));
    var s4 := Apply(s3, Stop);
    NoSteps(Apply(s4, Capture(0)));
    hide ValidRun, Final;
    steps := Prepend(s4, Capture(0), []);
    steps := Prepend(s3, Stop, steps);
    steps := Prepend(s2, Enqueue(0), steps);
    steps := Prepend(s1, Task(t), steps);
    steps := Prepend(s, Start(1), steps);
  }

  lemma NoSteps(s: State)
    ensures ValidRun(s, []) && Final(s, []) == s
  {
  }

  lemma Prepend(s: State, step: Step, rest: seq<Step>) returns (steps: seq<Step>)
    requires Enabled(s, step) && ValidRun(Apply(s, step), rest)
    ensures steps == [step] + rest && ValidRun(s, steps) && Final(s, steps) == Final(Apply(s, step), rest)
  {
    steps := [step] + rest;
    assert steps[1..] == rest;
  }

  /** With capacity 0 nothing is ever queued: a task is accepted only by a worker taking it. */
  lemma Rendezvous(s: State, steps: seq<Step>)
    requires Initial(s) && ValidRun(s, steps) && s.capacity == 0
    ensures Final(s, steps).accepted == Final(s, steps).taken
  {
    RunKeeps(s, steps);
    Fixed(s, steps);
  }

  lemma {:induction false} Fixed(s: State, steps: seq<Step>)
    requires ValidRun(s, steps)
    ensures Final(s, steps).capacity == s.capacity && Final(s, steps).handler == s.handler
    decreases |steps|
  {
    if steps != [] {
      Fixed(Apply(s, steps[0]), steps[1..]);
    }
  }

  /** Options.Ensure, for the two fields the runner depends on. */
  method Ensure(nThreads: int, bufferSize: int, numCPU: int) returns (threads: int, buffer: int)
    requires numCPU >= 1
    ensures threads >= 1 && (nThreads >= 1 ==> threads == nThreads) && (nThreads <= 0 ==> threads == 4 * numCPU)
    ensures buffer >= 0 && (bufferSize >= 0 ==> buffer == bufferSize) && (bufferSize < 0 ==> buffer == 256)
  {
    threads, buffer := nThreads, bufferSize;
    if threads <= 0 {
      threads := numCPU * 4;
    }
    if buffer < 0 {
      buffer := 256;
    }
  }
}
