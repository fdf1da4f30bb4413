/** job/ticker/ticker.go: tasks that run every so many ticks of one shared counter.

    One event is one call of Add, Start or Stop, or the whole pass that one delivered tick
    causes. Tasks may be added while a pass is under way, by its handlers or by others. */
module TickerJob {

  const TWO_64: nat := 0x1_0000_0000_0000_0000

  /** `interval` is a uint64. */
  datatype Task = Task(id: nat, interval: nat)

  /** A call of the handler of `tasks[task]` with the counter as its second argument; `tick`
      is the number of the tick, which unlike the counter does not wrap around. */
  datatype Call = Call(task: nat, counter: nat, tick: nat)

  /** `total` counts the ticks delivered and `calls` lists the handler calls, both since the
      job was created. */
  datatype State = State(counter: nat, running: bool, tasks: seq<Task>, total: nat, calls: seq<Call>)

  const FRESH := State(0, false, [], 0, [])

  /** `added[i]` are the tasks added while the pass is at its i-th task. */
  datatype Event = Add(task: Task) | Start | Stop | Tick(added: seq<seq<Task>>)

  function Flatten(added: seq<seq<Task>>): seq<Task> {
    if added == [] then [] else Flatten(added[..|added| - 1]) + added[|added| - 1]
  }

  /** The counter is a multiple of the task's interval. */
  predicate IsDue(task: Task, counter: nat) {
    task.interval > 0 && counter % task.interval == 0
  }

  /** The handler calls of one pass over `tasks`. */
  function Due(tasks: seq<Task>, counter: nat, tick: nat): seq<Call> {
    if tasks == [] then []
    else
      var n := |tasks| - 1;
      Due(tasks[..n], counter, tick) + if IsDue(tasks[n], counter) then [Call(n, counter, tick)] else []
  }

  /** A tick needs a running ticker, and an interval of 0 would end the process. */
  predicate Enabled(s: State, e: Event) {
    e.Tick? ==> s.running && |e.added| == |s.tasks| && forall t :: t in s.tasks ==> t.interval > 0
  }

  function Apply(s: State, e: Event): State
    requires Enabled(s, e)
  {
    match e
    case Add(task) => s.(tasks := s.tasks + [task])
    case Start => s.(running := true)
    case Stop => s.(running := false)
    case Tick(added) =>
      s.(counter := (s.counter + 1) % TWO_64, tasks := s.tasks + Flatten(added), total := s.total + 1,
         calls := s.calls + Due(s.tasks, s.counter, s.total))
  }

  /** Where a pass over `tasks` stops: at the first interval of 0, which divides by zero. */
  function FirstZero(tasks: seq<Task>): (n: nat)
    ensures n <= |tasks| && (forall t :: t in tasks[..n] ==> t.interval > 0)
    ensures n < |tasks| ==> tasks[n].interval == 0
  {
    if tasks == [] then 0
    else if tasks[0].interval == 0 then 0
    else
      var n := FirstZero(tasks[1..]);
      assert tasks[..n + 1] == [tasks[0]] + tasks[1..][..n];
      n + 1
  }

  class Ticker {
    var counter: nat
    var running: bool
    var tasks: seq<Task>
    ghost var total: nat
    ghost var calls: seq<Call>

    ghost function Now(): State
      reads this
    {
      State(counter, running, tasks, total, calls)
    }

    constructor ()
      ensures Now() == FRESH
    {
      counter, running, tasks, total, calls := 0, false, [], 0, [];
    }

    method Add(task: Task)
      modifies this
      ensures Now() == Apply(old(Now()), Event.Add(task))
    {
      tasks := tasks + [task];
    }

    method Start()
      modifies this
      ensures Now() == Apply(old(Now()), Event.Start)
    {
      if running {
        return;
      }
      running := true;
    }

    method Stop()
      modifies this
      ensures Now() == Apply(old(Now()), Event.Stop)
    {
      if !running {
        return;
      }
      running := false;
    }

    /** The turn of one task: it is called if it is due, and an error of its handler is only
        logged; meanwhile other tasks may be added. */
    method Turn(range: seq<Task>, i: nat, fails: bool, added: seq<Task>) returns (succeeds: bool)
      requires i < |range| && range[i].interval > 0
      modifies this`tasks, this`calls
      ensures tasks == old(tasks) + added
      ensures calls == old(calls) + if IsDue(range[i], counter) then [Call(i, counter, total)] else []
      ensures succeeds == (IsDue(range[i], counter) && !fails)
    {
      succeeds := false;
      if counter % range[i].interval == 0 {
        calls := calls + [Call(i, counter, total)];
        succeeds := !fails;
      }
      tasks := tasks + added;
    }

    /** The body of the tick loop. The range expression fixes the tasks of the pass when it
        begins; `failing` are the tasks whose handler returns an error. */
    method Pass(failing: set<nat>, added: seq<seq<Task>>) returns (panicked: bool, succeeded: set<nat>)
      requires running && |added| == |tasks|
      modifies this
      ensures panicked <==> FirstZero(old(tasks)) < |old(tasks)|
      ensures !panicked ==> Now() == Apply(old(Now()), Tick(added))
      ensures panicked ==>
                && counter == old(counter)
                && calls == old(calls) + Due(old(tasks)[..FirstZero(old(tasks))], old(counter), old(total))
      ensures forall i: nat :: i in succeeded <==>
                i < FirstZero(old(tasks)) && IsDue(old(tasks)[i], old(counter)) && i !in failing
    {
      hide Due, Flatten, FirstZero;
      var range := tasks;
      panicked, succeeded := false, {};
      var i: nat := 0;
      NothingDue(range, added, counter, total);
      while i < |range|
        invariant i <= FirstZero(range)
        invariant counter == old(counter) && running && total == old(total)
        invariant tasks == range + Flatten(added[..i])
        invariant calls == old(calls) + Due(range[..i], counter, total)
        invariant forall j: nat :: j in succeeded <==> j < i && IsDue(range[j], counter) && j !in failing
      {
        NextDue(range, added, counter, total, i);
        if range[i].interval == 0 {
          panicked := true;
          return;
        }
        var succeeds := Turn(range, i, i in failing, added[i]);
        if succeeds {
          succeeded := succeeded + {i};
        }
        i := i + 1;
      }
      assert range[..i] == range && added[..i] == added;
      counter := (counter + 1) % TWO_64;
      total := total + 1;
    }
  }

  lemma NothingDue(range: seq<Task>, added: seq<seq<Task>>, counter: nat, tick: nat)
    ensures Due(range[..0], counter, tick) == [] && range + Flatten(added[..0]) == range
  {
  }

  lemma NextDue(range: seq<Task>, added: seq<seq<Task>>, counter: nat, tick: nat, i: nat)
    requires i <= FirstZero(range) && i < |range| == |added|
    ensures range[i].interval == 0 <==> i == FirstZero(range)
    ensures range[i].interval > 0 ==> i + 1 <= FirstZero(range)
    ensures range + Flatten(added[..i + 1]) == range + Flatten(added[..i]) + added[i]
    ensures Due(range[..i + 1], counter, tick) ==
            Due(range[..i], counter, tick) + if IsDue(range[i], counter) then [Call(i, counter, tick)] else []
  {
    assert range[..i + 1][..i] == range[..i] && added[..i + 1][..i] == added[..i];
    assert i < FirstZero(range) ==> range[i] in range[..FirstZero(range)];
  }

  predicate ValidRun(s: State, events: seq<Event>)
    decreases |events|
  {
    events == [] || (Enabled(s, events[0]) && ValidRun(Apply(s, events[0]), events[1..]))
  }

  function Final(s: State, events: seq<Event>): State
    requires ValidRun(s, events)
    decreases |events|
  {
    if events == [] then s else Final(Apply(s, events[0]), events[1..])
  }

  /** The ticks at which task i was called. */
  function CallsOf(calls: seq<Call>, i: nat): seq<nat> {
    if calls == [] then []
    else
      var n := |calls| - 1;
      CallsOf(calls[..n], i) + if calls[n].task == i then [calls[n].tick] else []
  }

  /** The counter is a multiple of k at the n-th tick. */
  predicate Fires(k: nat, n: nat)
    requires k > 0
  {
    n % TWO_64 % k == 0
  }

  /** The ticks from a up to b, in order, at which the counter is a multiple of k. */
  function Scheduled(k: nat, a: nat, b: nat): seq<nat>
    requires k > 0
    decreases b
  {
    if b <= a then []
    else Scheduled(k, a, b - 1) + if Fires(k, b - 1) then [b - 1] else []
  }

  function CeilDiv(n: nat, k: nat): nat
    requires k > 0
  {
    (n + k - 1) / k
  }

  lemma {:induction false} CallsOfConcat(a: seq<Call>, b: seq<Call>, i: nat)
    ensures CallsOf(a + b, i) == CallsOf(a, i) + CallsOf(b, i)
  {
    if b == [] {
      assert a + b == a;
    } else {
      var n := |b| - 1;
      assert (a + b)[..|a + b| - 1] == a + b[..n];
      CallsOfConcat(a, b[..n], i);
    }
  }

  /** A pass calls each due task it ranges over once, and no other. */
  lemma {:induction false} DueOnce(tasks: seq<Task>, counter: nat, tick: nat, i: nat)
    ensures CallsOf(Due(tasks, counter, tick), i) == if i < |tasks| && IsDue(tasks[i], counter) then [tick] else []
  {
    if tasks != [] {
      var n := |tasks| - 1;
      DueOnce(tasks[..n], counter, tick, i);
      var last := if IsDue(tasks[n], counter) then [Call(n, counter, tick)] else [];
      CallsOfConcat(Due(tasks[..n], counter, tick), last, i);
      assert last != [] ==> last[..0] == [];
    }
  }

  /** The counter is the number of ticks delivered, as a 64-bit word, and so is the argument of
      every handler call. */
  ghost predicate Synced(s: State) {
    s.counter == s.total % TWO_64 && forall c :: c in s.calls ==> c.counter == c.tick % TWO_64
  }

  lemma {:induction false} DueSynced(tasks: seq<Task>, counter: nat, tick: nat)
    ensures forall c :: c in Due(tasks, counter, tick) ==> c.counter == counter && c.tick == tick
  {
    if tasks != [] {
      DueSynced(tasks[..|tasks| - 1], counter, tick);
    }
  }

  lemma StepSynced(s: State, e: Event)
    requires Synced(s) && Enabled(s, e)
    ensures Synced(Apply(s, e))
  {
    DueSynced(s.tasks, s.counter, s.total);
  }

  lemma {:induction false} CounterIsTotal(s: State, events: seq<Event>)
    requires ValidRun(s, events) && Synced(s)
    ensures Synced(Final(s, events))
    decreases |events|
  {
    hide Synced;
    if events != [] {
      StepSynced(s, events[0]);
      CounterIsTotal(Apply(s, events[0]), events[1..]);
    }
  }

  lemma {:induction false} ScheduledJoin(k: nat, a: nat, b: nat, c: nat)
    requires k > 0 && a <= b <= c
    ensures Scheduled(k, a, c) == Scheduled(k, a, b) + Scheduled(k, b, c)
    decreases c
  {
    if b < c {
      ScheduledJoin(k, a, b, c - 1);
    }
  }

  lemma TickCalls(s: State, added: seq<seq<Task>>, i: nat)
    requires Enabled(s, Tick(added)) && Synced(s) && i < |s.tasks|
    ensures CallsOf(Apply(s, Tick(added)).calls, i) ==
            CallsOf(s.calls, i) + Scheduled(s.tasks[i].interval, s.total, s.total + 1)
  {
    DueOnce(s.tasks, s.counter, s.total, i);
    CallsOfConcat(s.calls, Due(s.tasks, s.counter, s.total), i);
    assert Scheduled(s.tasks[i].interval, s.total, s.total) == [];
  }

  /** A task present throughout a run is called exactly on schedule, through any Stop and
      Start and any Add, for counters that wrap around too. */
  lemma {:induction false} Law(s: State, events: seq<Event>, i: nat)
    requires ValidRun(s, events) && Synced(s)
    requires i < |s.tasks| && s.tasks[i].interval > 0
    ensures var f := Final(s, events);
            && s.total <= f.total
            && CallsOf(f.calls, i) == CallsOf(s.calls, i) + Scheduled(s.tasks[i].interval, s.total, f.total)
    decreases |events|
  {
    hide CallsOf, Due, Synced;
    if events != [] {
      var s' := Apply(s, events[0]);
      StepSynced(s, events[0]);
      Law(s', events[1..], i);
      if events[0].Tick? {
        TickCalls(s, events[0].added, i);
        ScheduledJoin(s.tasks[i].interval, s.total, s'.total, Final(s, events).total);
      }
    }
  }

  /** Tasks that a pass adds are not called in it. */
  lemma AddedLater(s: State, added: seq<seq<Task>>, j: nat)
    requires Enabled(s, Tick(added)) && |s.tasks| <= j
    ensures CallsOf(Apply(s, Tick(added)).calls, j) == CallsOf(s.calls, j)
  {
    DueOnce(s.tasks, s.counter, s.total, j);
    CallsOfConcat(s.calls, Due(s.tasks, s.counter, s.total), j);
  }

  // ---- the law from a new ticker, read off its events ----

  /** The tasks an event brings, in the order they are added. */
  function Brings(e: Event): seq<Task> {
    match e
    case Add(task) => [task]
    case Tick(added) => Flatten(added)
    case _ => []
  }

  /** The tasks the events bring, in order. */
  function Given(events: seq<Event>): seq<Task> {
    if events == [] then [] else Given(events[..|events| - 1]) + Brings(events[|events| - 1])
  }

  function Ticks(events: seq<Event>): nat {
    if events == [] then 0
    else Ticks(events[..|events| - 1]) + if events[|events| - 1].Tick? then 1 else 0
  }

  /** The events start the ticker and do not stop it after that. */
  ghost predicate Started(events: seq<Event>) {
    exists i :: 0 <= i < |events| && events[i].Start? && forall j :: i < j < |events| ==> !events[j].Stop?
  }

  lemma {:induction false} SplitRun(s: State, events: seq<Event>, p: nat)
    requires ValidRun(s, events) && p <= |events|
    ensures ValidRun(s, events[..p]) && ValidRun(Final(s, events[..p]), events[p..])
    ensures Final(Final(s, events[..p]), events[p..]) == Final(s, events)
    decreases p
  {
    if p == 0 {
      assert events[..p] == [] && events[p..] == events;
    } else {
      assert events[..p][1..] == events[1..][..p - 1] && events[p..] == events[1..][p - 1..];
      SplitRun(Apply(s, events[0]), events[1..], p - 1);
    }
  }

  lemma LastEvent(s: State, events: seq<Event>)
    requires ValidRun(s, events) && events != []
    ensures var n := |events| - 1;
            && ValidRun(s, events[..n]) && Enabled(Final(s, events[..n]), events[n])
            && Final(s, events) == Apply(Final(s, events[..n]), events[n])
  {
    hide Apply, Enabled;
    var n := |events| - 1;
    SplitRun(s, events, n);
    assert events[n..] == [events[n]] && events[n..][1..] == [];
  }

  lemma {:induction false} StartedNext(events: seq<Event>)
    requires events != []
    ensures var n := |events| - 1;
            Started(events) <==> events[n].Start? || (Started(events[..n]) && !events[n].Stop?)
  {
    var n := |events| - 1;
    if i :| 0 <= i < |events| && events[i].Start? && forall j :: i < j < |events| ==> !events[j].Stop? {
      assert i < n ==> events[..n][i].Start? && forall j :: i < j < n ==> !events[..n][j].Stop?;
    }
    if i :| 0 <= i < n && events[..n][i].Start? && forall j :: i < j < n ==> !events[..n][j].Stop? {
      assert forall j :: i < j < n ==> events[j] == events[..n][j];
      assert events[i].Start?;
    }
  }

  ghost predicate CallsPresent(s: State) {
    forall c :: c in s.calls ==> c.task < |s.tasks|
  }

  lemma {:induction false} DuePresent(tasks: seq<Task>, counter: nat, tick: nat)
    ensures forall c :: c in Due(tasks, counter, tick) ==> c.task < |tasks|
  {
    if tasks != [] {
      DuePresent(tasks[..|tasks| - 1], counter, tick);
    }
  }

  /** After any events of a new ticker: its tasks are exactly those it was given, in order and
      as they were given; it has counted the ticks; and it runs if and only if it was started
      and not stopped since. */
  lemma {:induction false} AsGiven(events: seq<Event>)
    requires ValidRun(FRESH, events)
    ensures var f := Final(FRESH, events);
            && f.tasks == Given(events)
            && f.total == Ticks(events)
            && (f.running <==> Started(events))
            && Synced(f) && CallsPresent(f)
  {
    if events != [] {
      var n := |events| - 1;
      LastEvent(FRESH, events);
      var c := Final(FRESH, events[..n]);
      AsGiven(events[..n]);
      StartedNext(events);
      StepSynced(c, events[n]);
      DuePresent(c.tasks, c.counter, c.total);
      hide Synced, Due, Started, Flatten, ValidRun, Final;
    }
  }

  /** A tick can come if and only if the ticker was started and not stopped since, and no task
      given so far has an interval of 0. */
  lemma TickIff(events: seq<Event>, added: seq<seq<Task>>)
    requires ValidRun(FRESH, events)
    ensures Enabled(Final(FRESH, events), Tick(added)) <==>
            Started(events) && |added| == |Given(events)| && forall t :: t in Given(events) ==> t.interval > 0
  {
    AsGiven(events);
  }

  /** Between a Stop and the next Start no tick is delivered. */
  lemma NoTickWhileStopped(events: seq<Event>, p: nat, q: nat)
    requires ValidRun(FRESH, events) && p < q < |events| && events[p].Stop? && events[q].Tick?
    ensures exists j :: p < j < q && events[j].Start?
  {
    SplitRun(FRESH, events, q);
    assert events[q..][0] == events[q];
    AsGiven(events[..q]);
    var i :| 0 <= i < q && events[..q][i].Start? && forall j :: i < j < q ==> !events[..q][j].Stop?;
    assert events[..q][p].Stop?;
    assert events[i].Start?;
  }

  lemma {:induction false} NoCallsYet(calls: seq<Call>, i: nat)
    requires forall c :: c in calls ==> c.task < i
    ensures CallsOf(calls, i) == []
  {
    if calls != [] {
      var n := |calls| - 1;
      assert calls[n] in calls;
      NoCallsYet(calls[..n], i);
    }
  }

  lemma NewTask(s: State, e: Event, q: nat)
    requires Enabled(s, e) && CallsPresent(s) && q < |Brings(e)|
    ensures var s', i := Apply(s, e), |s.tasks| + q;
            i < |s'.tasks| && s'.tasks[i] == Brings(e)[q] && CallsOf(s'.calls, i) == []
  {
    hide Due, Flatten;
    NoCallsYet(s.calls, |s.tasks| + q);
    if e.Tick? {
      AddedLater(s, e.added, |s.tasks| + q);
    }
  }

  lemma JustGiven(events: seq<Event>, p: nat, q: nat)
    requires ValidRun(FRESH, events) && p < |events| && q < |Brings(events[p])|
    ensures ValidRun(FRESH, events[..p + 1])
    ensures var m, i := Final(FRESH, events[..p + 1]), |Given(events[..p])| + q;
            && i < |m.tasks| && m.tasks[i] == Brings(events[p])[q]
            && CallsOf(m.calls, i) == [] && Synced(m) && m.total == Ticks(events[..p + 1])
  {
    hide *;
    var upTo := events[..p + 1];
    SplitRun(FRESH, events, p + 1);
    LastEvent(FRESH, upTo);
    assert upTo[..p] == events[..p] && upTo[p] == events[p];
    AsGiven(upTo);
    AsGiven(events[..p]);
    NewTask(Final(FRESH, events[..p]), events[p], q);
  }

  /** The law for any events of a new ticker, through Stop and Start: the q-th task that comes
      with event p, by Add or during a pass, is there as it was given, and is called at the ticks
      after p on which the counter is a multiple of its interval, once each, in order, and at no
      other. */
  lemma GivenLaw(events: seq<Event>, p: nat, q: nat)
    requires ValidRun(FRESH, events) && p < |events| && q < |Brings(events[p])|
    ensures var f, i, task := Final(FRESH, events), |Given(events[..p])| + q, Brings(events[p])[q];
            && i < |f.tasks| && f.tasks[i] == task
            && (task.interval > 0 ==>
                  CallsOf(f.calls, i) == Scheduled(task.interval, Ticks(events[..p + 1]), Ticks(events)))
            && (task.interval == 0 ==> CallsOf(f.calls, i) == [])
  {
    hide *;
    JustGiven(events, p, q);
    SplitRun(FRESH, events, p + 1);
    LawFrom(Final(FRESH, events[..p + 1]), events[p + 1..], |Given(events[..p])| + q);
    AsGiven(events);
  }

  lemma LawFrom(m: State, rest: seq<Event>, i: nat)
    requires ValidRun(m, rest) && Synced(m) && i < |m.tasks| && CallsOf(m.calls, i) == []
    ensures var f, task := Final(m, rest), m.tasks[i];
            && i < |f.tasks| && f.tasks[i] == task
            && (task.interval > 0 ==> CallsOf(f.calls, i) == Scheduled(task.interval, m.total, f.total))
            && (task.interval == 0 ==> CallsOf(f.calls, i) == [])
  {
    hide *;
    TasksStay(m, rest, i);
    if m.tasks[i].interval > 0 {
      Law(m, rest, i);
    } else {
      NeverCalled(m, rest, i);
    }
  }

  lemma {:induction false} TasksStay(s: State, events: seq<Event>, i: nat)
    requires ValidRun(s, events) && i < |s.tasks|
    ensures i < |Final(s, events).tasks| && Final(s, events).tasks[i] == s.tasks[i]
    decreases |events|
  {
    hide Due, Flatten;
    if events != [] {
      TasksStay(Apply(s, events[0]), events[1..], i);
    }
  }

  /** With an interval of 0 there is no further tick. */
  lemma {:induction false} NeverCalled(s: State, events: seq<Event>, i: nat)
    requires ValidRun(s, events) && i < |s.tasks| && s.tasks[i].interval == 0
    ensures Final(s, events).calls == s.calls
    decreases |events|
  {
    if events != [] {
      assert s.tasks[i] in s.tasks;
      NeverCalled(Apply(s, events[0]), events[1..], i);
    }
  }

  lemma Quotient(n: nat, k: nat, q: nat, r: nat)
    requires n == q * k + r && r < k
    ensures n / k == q && n % k == r
  {
    var d := n / k - q;
    assert d * k == (n / k) * k - q * k == r - n % k;
    MultiplesApart(d, k);
  }

  lemma MultiplesApart(d: int, k: nat)
    ensures d >= 1 ==> d * k >= k
    ensures d <= -1 ==> d * k <= -(k as int)
  {
    assert d * k == (d - 1) * k + k == (d + 1) * k - k;
  }

  lemma CeilDivStep(n: nat, k: nat)
    requires k > 0
    ensures CeilDiv(n + 1, k) == CeilDiv(n, k) + if n % k == 0 then 1 else 0
  {
    var q, r := n / k, n % k;
    assert (q + 1) * k == q * k + k;
    Quotient(n + k, k, q + 1, r);
    if r == 0 {
      Quotient(n + k - 1, k, q, k - 1);
    } else {
      Quotient(n + k - 1, k, q + 1, r - 1);
    }
  }

  /** The schedule lists each tick of its range once, in order, on which the counter is a
      multiple of k. */
  lemma {:induction false} ScheduledOnce(k: nat, a: nat, b: nat)
    requires k > 0
    ensures forall n :: n in Scheduled(k, a, b) <==> a <= n < b && Fires(k, n)
    ensures forall x, y :: 0 <= x < y < |Scheduled(k, a, b)| ==> Scheduled(k, a, b)[x] < Scheduled(k, a, b)[y]
    decreases b
  {
    hide Fires;
    if a < b {
      ScheduledOnce(k, a, b - 1);
      var init := Scheduled(k, a, b - 1);
      assert forall x :: 0 <= x < |init| ==> init[x] in init;
    }
  }

  /** Before the counter wraps around there are ceil(b/k) - ceil(a/k) of them. */
  lemma {:induction false} ScheduledCount(k: nat, a: nat, b: nat)
    requires k > 0 && a <= b <= TWO_64
    ensures |Scheduled(k, a, b)| == CeilDiv(b, k) - CeilDiv(a, k)
    decreases b
  {
    if a < b {
      ScheduledCount(k, a, b - 1);
      CeilDivStep(b - 1, k);
      SmallTick(k, b - 1);
      hide Fires;
    }
  }

  lemma SmallTick(k: nat, n: nat)
    requires k > 0
    ensures n < TWO_64 ==> (Fires(k, n) <==> n % k == 0)
    ensures Fires(k, TWO_64)
  {
    assert n < TWO_64 ==> n % TWO_64 == n;
  }

  /** The counting law below 2^64 ticks. */
  lemma CountingLaw(s: State, events: seq<Event>, i: nat)
    requires ValidRun(s, events) && Synced(s)
    requires i < |s.tasks| && s.tasks[i].interval > 0
    requires Final(s, events).total <= TWO_64
    ensures var f, k := Final(s, events), s.tasks[i].interval;
            var before, after := CallsOf(s.calls, i), CallsOf(f.calls, i);
            && before <= after
            && |after| - |before| == CeilDiv(f.total, k) - CeilDiv(s.total, k)
            && (forall n :: n in after[|before|..] <==> s.total <= n < f.total && n % k == 0)
            && (forall x, y :: |before| <= x < y < |after| ==> after[x] < after[y])
  {
    var k, a, b := s.tasks[i].interval, s.total, Final(s, events).total;
    Law(s, events, i);
    ScheduledOnce(k, a, b);
    ScheduledCount(k, a, b);
    hide *;
    var before, rest := CallsOf(s.calls, i), Scheduled(k, a, b);
    assert (before + rest)[|before|..] == rest;
    forall n | a <= n < b ensures Fires(k, n) <==> n % k == 0 {
      SmallTick(k, n);
    }
  }

  /** The law over runs of any length, from any moment before the first wrap-around: the task
      is called at exactly the ticks that are multiples of its interval if and only if fewer
      than 2^64 + 1 ticks were delivered, or the interval divides 2^64. */
  lemma WrapIff(s: State, events: seq<Event>, i: nat)
    requires ValidRun(s, events) && Synced(s) && s.total <= TWO_64
    requires i < |s.tasks| && s.tasks[i].interval > 0
    ensures var f, k := Final(s, events), s.tasks[i].interval;
            var before, after := CallsOf(s.calls, i), CallsOf(f.calls, i);
            && before <= after
            && ((forall n :: n in after[|before|..] <==> s.total <= n < f.total && n % k == 0) <==>
                f.total <= TWO_64 || TWO_64 % k == 0)
  {
    hide *;
    var k, a, b := s.tasks[i].interval, s.total, Final(s, events).total;
    Law(s, events, i);
    var before, rest := CallsOf(s.calls, i), Scheduled(k, a, b);
    assert (before + rest)[|before|..] == rest;
    ScheduleWrapIff(k, a, b);
  }

  lemma ScheduleWrapIff(k: nat, a: nat, b: nat)
    requires k > 0 && a <= TWO_64
    ensures (forall n :: n in Scheduled(k, a, b) <==> a <= n < b && n % k == 0) <==> b <= TWO_64 || TWO_64 % k == 0
  {
    hide Scheduled, Fires;
    ScheduledOnce(k, a, b);
    if b <= TWO_64 || TWO_64 % k == 0 {
      forall n: nat | a <= n < b ensures Fires(k, n) <==> n % k == 0 {
        SmallTick(k, n);
        if TWO_64 % k == 0 {
          WrapKeeps(n, k);
        }
      }
    } else {
      SmallTick(k, 0);
      assert TWO_64 in Scheduled(k, a, b);
    }
  }

  lemma WrapKeeps(n: nat, k: nat)
    requires k > 0 && TWO_64 % k == 0
    ensures Fires(k, n) <==> n % k == 0
  {
    var r, m := n % TWO_64, TWO_64 / k;
    var q := n / TWO_64;
    var p := q * m;
    assert q * TWO_64 == q * (m * k) == p * k;
    assert (p + r / k) * k == p * k + (r / k) * k;
    Quotient(n, k, p + r / k, r % k);
  }

  /** The whole law for a task given before the first wrap-around: it is called at exactly the
      multiples of its interval among the ticks after it was given, each once and in order, if and
      only if the run has at most 2^64 ticks or the interval divides 2^64. */
  lemma GivenMultiplesIff(events: seq<Event>, p: nat, q: nat)
    requires ValidRun(FRESH, events) && p < |events| && q < |Brings(events[p])|
    requires Brings(events[p])[q].interval > 0 && Ticks(events[..p + 1]) <= TWO_64
    ensures var f, i, k := Final(FRESH, events), |Given(events[..p])| + q, Brings(events[p])[q].interval;
            && ((forall n :: n in CallsOf(f.calls, i) <==>
                             Ticks(events[..p + 1]) <= n < Ticks(events) && n % k == 0) <==>
                Ticks(events) <= TWO_64 || TWO_64 % k == 0)
            && (forall x, y :: 0 <= x < y < |CallsOf(f.calls, i)| ==>
                  CallsOf(f.calls, i)[x] < CallsOf(f.calls, i)[y])
  {
    hide *;
    var k, a, b := Brings(events[p])[q].interval, Ticks(events[..p + 1]), Ticks(events);
    GivenLaw(events, p, q);
    ScheduledOnce(k, a, b);
    ScheduleWrapIff(k, a, b);
  }
}
