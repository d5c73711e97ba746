/** The state shared by `nextTick`, `spawn` and the event loop (src/main.js:165-167, 320-376, 449-502): the function
  queue, the idle callback that drains it, and the table of threads.

  The first half says on values what each operation does and proves what holds over all runs; the class `Process`
  at the end has the fields and loops of the source.
 */
module Runtime {
  import opened Bytes
  import opened Handshake
  import opened Tasks

  /** `record` is the start-up record in the thread's buffer. */
  datatype Thread = Thread(id: nat, record: seq<byte>)

  /** A queued function: one given to `nextTick`, or the one with which `spawn` starts a thread. */
  datatype Entry = Run(task: Task) | Launch(task: Task, thread: Thread)

  /** `handlers` counts the idle callbacks registered with the event loop. `enqueued`, `taken` and `completed` are
      the history: all functions queued, those taken off the queue, and the threads whose completion was reported. */
  datatype State = State(queue: seq<Entry>, idleActive: bool, handlers: nat, ticks: nat, next: nat,
                         threads: map<nat, Thread>, enqueued: seq<Entry>, taken: seq<Entry>, completed: set<nat>)

  const INITIAL := State([], false, 0, 0, 1, map[], [], [], {})

  // ----- operations

  function Enqueue(s: State, e: Entry): State {
    s.(queue := s.queue + [e], enqueued := s.enqueued + [e], idleActive := true,
       handlers := if s.idleActive then s.handlers else s.handlers + 1)
  }

  function AddThread(s: State, t: Task): State
    requires t.kind.Start?
  {
    var thread := Thread(s.next, Record(s.next, t.kind.boot));
    Enqueue(s.(next := s.next + 1, threads := s.threads[s.next := thread]), Launch(t, thread))
  }

  function DoCall(s: State, t: Task): State {
    if t.kind.Job? then Enqueue(s, Run(t)) else AddThread(s, t)
  }

  function DoCalls(s: State, ts: seq<Task>): State
    decreases |ts|
  {
    if ts == [] then s else DoCalls(DoCall(s, ts[0]), ts[1..])
  }

  /** Takes the function at the head of the queue and runs it. */
  function RunHead(s: State): State
    requires s.queue != []
  {
    DoCalls(s.(queue := s.queue[1..], taken := s.taken + [s.queue[0]]), Calls(s.queue[0].task))
  }

  datatype Drained = Drained(state: State, threw: bool)

  /** Runs the next `n` functions of the queue, or those up to the first that throws. */
  function DoDrain(s: State, n: nat): Drained
    requires n <= |s.queue|
    decreases n
  {
    if n == 0 then Drained(s, false)
    else
      DoCallsQueues(s.(queue := s.queue[1..], taken := s.taken + [s.queue[0]]), Calls(s.queue[0].task));
      if Fails(s.queue[0].task) then Drained(RunHead(s), true)
      else DoDrain(RunHead(s), n - 1)
  }

  /** The idle callback. */
  function DoTick(s: State): Drained {
    var r := DoDrain(s.(ticks := s.ticks + 1), |s.queue|);
    if !r.threw && r.state.queue == [] then r.(state := r.state.(idleActive := false, handlers := 0)) else r
  }

  function TasksOf(q: seq<Entry>): (ts: seq<Task>)
    ensures |ts| == |q| && forall i :: 0 <= i < |q| ==> ts[i] == q[i].task
  {
    seq(|q|, i requires 0 <= i < |q| => q[i].task)
  }

  lemma {:induction false} DoCallsQueues(s: State, ts: seq<Task>)
    ensures var t := DoCalls(s, ts);
            && s.queue <= t.queue && TasksOf(t.queue) == TasksOf(s.queue) + ts
            && t.taken == s.taken && t.ticks == s.ticks && t.completed == s.completed
            && (t.idleActive <==> s.idleActive || ts != [])
    decreases |ts|
  {
    if ts != [] {
      var s1 := DoCall(s, ts[0]);
      DoCallsQueues(s1, ts[1..]);
      assert TasksOf(s1.queue) == TasksOf(s.queue) + [ts[0]];
      assert TasksOf(s.queue) + [ts[0]] + ts[1..] == TasksOf(s.queue) + ts;
    }
  }

  // ----- what a tick does

  lemma TasksOfConcat(a: seq<Entry>, b: seq<Entry>)
    ensures TasksOf(a + b) == TasksOf(a) + TasksOf(b)
  {
  }

  /** What draining the functions `front`, with `rest` behind them in the queue, comes to. */
  ghost predicate DrainsTo(s: State, front: seq<Entry>, rest: seq<Entry>, r: Drained) {
    var q := TasksOf(front);
    var m := RanCount(q);
    && r.state.taken == s.taken + front[..m]
    && front[m..] + rest <= r.state.queue
    && TasksOf(r.state.queue) == q[m..] + (TasksOf(rest) + Children(q[..m]))
    && r.state.ticks == s.ticks
    && (s.idleActive ==> r.state.idleActive)
    && (r.threw <==> AnyFails(q))
  }

  lemma {:induction false} DrainEffect(s: State, front: seq<Entry>, rest: seq<Entry>)
    requires s.queue == front + rest
    ensures DrainsTo(s, front, rest, DoDrain(s, |front|))
    decreases |front|
  {
    hide DoCalls, DrainsTo, Calls;
    if front == [] {
      DrainsNothing(s, rest);
    } else {
      var e, front1 := front[0], front[1..];
      var s1 := RunHead(s);
      assert s.queue[1..] == front1 + rest;
      DoCallsQueues(s.(queue := s.queue[1..], taken := s.taken + [e]), Calls(e.task));
      var rest1 := s1.queue[|front1|..];
      assert s1.queue == front1 + rest1;
      QueueGrows(front1, rest, rest1, Calls(e.task));
      assert front == [e] + front1;
      if Fails(e.task) {
        DrainsToFailure(s, e, front1, rest, s1, rest1);
      } else {
        DrainEffect(s1, front1, rest1);
        DrainsOneMore(s, e, front1, rest, s1, rest1, DoDrain(s1, |front1|));
      }
    }
  }

  lemma QueueGrows(front: seq<Entry>, rest: seq<Entry>, rest1: seq<Entry>, ts: seq<Task>)
    requires front + rest <= front + rest1
    requires TasksOf(front + rest1) == TasksOf(front + rest) + ts
    ensures rest <= rest1 && TasksOf(rest1) == TasksOf(rest) + ts
  {
    assert rest1 == (front + rest1)[|front|..] && rest == (front + rest)[|front|..];
    assert TasksOf(rest1) == TasksOf(front + rest1)[|front|..];
    assert TasksOf(rest) == TasksOf(front + rest)[|front|..];
  }

  lemma DrainsNothing(s: State, rest: seq<Entry>)
    requires s.queue == rest
    ensures DrainsTo(s, [], rest, Drained(s, false))
  {
    hide RanCount, Children, Fails, TasksOf;
    assert TasksOf([]) == [];
    NothingRuns();
    assert TasksOf([])[0..] + (TasksOf(rest) + []) == TasksOf(rest);
    assert s.taken + [][..0] == s.taken && [][0..] + rest == rest;
  }

  lemma NothingRuns()
    ensures RanCount([]) == 0 && Children([][..0]) == [] && !AnyFails([])
  {
  }

  lemma DrainsToFailure(s: State, e: Entry, front1: seq<Entry>, rest: seq<Entry>, s1: State, rest1: seq<Entry>)
    requires Fails(e.task) && rest <= rest1 && TasksOf(rest1) == TasksOf(rest) + Calls(e.task)
    requires s1.queue == front1 + rest1 && s1.taken == s.taken + [e] && s1.ticks == s.ticks
    requires s.idleActive ==> s1.idleActive
    ensures DrainsTo(s, [e] + front1, rest, Drained(s1, true))
  {
    hide Calls;
    var front := [e] + front1;
    var q := TasksOf(front);
    assert q[0] == e.task && e.task in q && RanCount(q) == 1;
    assert front[..1] == [e] && front[1..] == front1;
    assert q[1..] == TasksOf(front1);
    assert q[..1][0] == e.task && q[..1][1..] == [];
    assert Children(q[..1]) == Calls(e.task) + [] == Calls(e.task);
    TasksOfConcat(front1, rest1);
  }

  lemma DrainsOneMore(s: State, e: Entry, front1: seq<Entry>, rest: seq<Entry>, s1: State, rest1: seq<Entry>,
                      r: Drained)
    requires !Fails(e.task) && rest <= rest1 && TasksOf(rest1) == TasksOf(rest) + Calls(e.task)
    requires s1.taken == s.taken + [e] && s1.ticks == s.ticks && (s.idleActive ==> s1.idleActive)
    requires DrainsTo(s1, front1, rest1, r)
    ensures DrainsTo(s, [e] + front1, rest, r)
  {
    hide Calls, Children, RanCount, AnyFails, Fails, TasksOf;
    var front, q1 := [e] + front1, TasksOf(front1);
    var m := RanCount(q1);
    var q := TasksOf(front);
    TasksOfFirst(e, front1);
    RanOneMore(e.task, q1);
    assert front[..m + 1] == [e] + front1[..m] && front[m + 1..] == front1[m..];
    Associative(s.taken, [e], front1[..m]);
    assert TasksOf(rest1) + Children(q1[..m]) == TasksOf(rest) + Children(q[..m + 1]) by {
      Associative(TasksOf(rest), Calls(e.task), Children(q1[..m]));
    }
    assert front1[m..] + rest <= front1[m..] + rest1;
  }

  lemma TasksOfFirst(e: Entry, q: seq<Entry>)
    ensures TasksOf([e] + q) == [e.task] + TasksOf(q)
  {
  }

  lemma RanOneMore(t: Task, q1: seq<Task>)
    requires !Fails(t)
    ensures var q, m := [t] + q1, RanCount(q1);
            && RanCount(q) == m + 1 && (AnyFails(q) <==> AnyFails(q1))
            && q[m + 1..] == q1[m..] && Children(q[..m + 1]) == Calls(t) + Children(q1[..m])
  {
    hide Calls;
    var q, m := [t] + q1, RanCount(q1);
    assert q[1..] == q1;
    assert q[..m + 1][0] == t && q[..m + 1][1..] == q1[..m];
  }

  lemma {:induction false} DrainAll(s: State)
    requires s.idleActive
    ensures var q, r := TasksOf(s.queue), DoTick(s);
            var n := RanCount(q);
            && r.state.taken == s.taken + s.queue[..n]
            && s.queue[n..] <= r.state.queue && TasksOf(r.state.queue) == After(q)
            && r.state.ticks == s.ticks + 1
            && (r.threw <==> AnyFails(q))
            && (r.state.idleActive <==> AnyFails(q) || After(q) != [])
  {
    hide DoDrain, Children, RanCount, AnyFails, TasksOf;
    var s1, q := s.(ticks := s.ticks + 1), TasksOf(s.queue);
    assert s1.queue == s.queue + [];
    DrainEffect(s1, s.queue, []);
    assert TasksOf([]) + Children(q[..RanCount(q)]) == Children(q[..RanCount(q)]);
    assert s.queue[RanCount(q)..] + [] == s.queue[RanCount(q)..];
  }

  /** One tick runs the functions that were in the queue when it began, in order, up to and including the first that
      throws: one marked so, other than the start of a thread that returns 0. Functions queued meanwhile wait for
      later ticks, behind those that did not get their turn. */
  lemma {:induction false} TickEffect(s: State)
    requires s.idleActive
    ensures var r := DoTick(s);
            var n := |r.state.taken| - |s.taken|;
            && 0 <= n <= |s.queue| && r.state.taken == s.taken + s.queue[..n]
            && (r.threw ==> 0 < n && s.queue[n - 1].task.throws
                            && (s.queue[n - 1].task.kind.Job? || s.queue[n - 1].task.kind.status != 0))
            && (!r.threw ==> n == |s.queue|)
            && (forall i :: 0 <= i < (if r.threw then n - 1 else n) && s.queue[i].task.throws ==>
                  s.queue[i].task.kind.Start? && s.queue[i].task.kind.status == 0)
            && s.queue[n..] <= r.state.queue
            && TasksOf(r.state.queue) == TasksOf(s.queue)[n..] + Children(TasksOf(s.queue)[..n])
            && r.state.ticks == s.ticks + 1
            && (r.state.idleActive <==> r.threw || r.state.queue != [])
  {
    hide DoTick, RanCount, Children, TasksOf, AnyFails;
    DrainAll(s);
    RanOnFields(s.queue);
  }

  /** How many functions a tick runs, told from what they are. */
  lemma RanOnFields(q: seq<Entry>)
    ensures var n, threw := RanCount(TasksOf(q)), AnyFails(TasksOf(q));
            && (threw ==> 0 < n && q[n - 1].task.throws
                          && (q[n - 1].task.kind.Job? || q[n - 1].task.kind.status != 0))
            && (!threw ==> n == |q|)
            && (forall i :: 0 <= i < (if threw then n - 1 else n) && q[i].task.throws ==>
                  q[i].task.kind.Start? && q[i].task.kind.status == 0)
  {
    hide RanCount, TasksOf;
    var ts := TasksOf(q);
    var n, threw := RanCount(ts), AnyFails(ts);
    var m := if threw then n - 1 else n;
    forall i | 0 <= i < m && q[i].task.throws ensures q[i].task.kind.Start? && q[i].task.kind.status == 0 {
      assert ts[..m][i] == q[i].task && ts[..m][i] in ts[..m];
      assert !threw ==> ts[..m] == ts;
      assert !Fails(q[i].task);
    }
  }

  /** Running the function at the head of the queue puts its calls at the end, in the order it makes them: a `Job`
      makes all its calls, and so does the start of a thread that fails; one that returns 0 makes none. */
  lemma {:induction false} HeadEffect(s: State)
    requires s.queue != []
    ensures var t, e := RunHead(s), s.queue[0];
            && t.taken == s.taken + [e] && t.ticks == s.ticks && t.completed == s.completed
            && s.queue[1..] <= t.queue
            && (e.task.kind.Job? ==> TasksOf(t.queue) == TasksOf(s.queue[1..]) + e.task.calls)
            && (e.task.kind.Start? && e.task.kind.status != 0 ==>
                  TasksOf(t.queue) == TasksOf(s.queue[1..]) + e.task.calls)
            && (e.task.kind.Start? && e.task.kind.status == 0 ==> t.queue == s.queue[1..])
  {
    hide DoCalls, TasksOf;
    var s0 := s.(queue := s.queue[1..], taken := s.taken + [s.queue[0]]);
    DoCallsQueues(s0, Calls(s.queue[0].task));
    NoCalls(s0);
  }

  lemma NoCalls(s: State)
    ensures DoCalls(s, []) == s
  {
  }

  // ----- all runs

  function Ids(q: seq<Entry>): seq<nat> {
    if q == [] then [] else Ids(q[..|q| - 1]) + if q[|q| - 1].Launch? then [q[|q| - 1].thread.id] else []
  }

  function UpTo(next: nat): seq<nat> {
    if next <= 1 then [] else UpTo(next - 1) + [next - 1]
  }

  lemma {:induction false} UpToAt(next: nat)
    requires 1 <= next
    ensures |UpTo(next)| == next - 1
    ensures forall i :: 0 <= i < next - 1 ==> UpTo(next)[i] == i + 1
  {
    if next != 1 {
      UpToAt(next - 1);
    }
  }

  lemma {:induction false} IdsConcat(a: seq<Entry>, b: seq<Entry>)
    ensures Ids(a + b) == Ids(a) + Ids(b)
    decreases |b|
  {
    if b == [] {
      assert a + b == a;
    } else {
      IdsConcat(a, b[..|b| - 1]);
      assert (a + b)[..|a + b| - 1] == a + b[..|b| - 1];
    }
  }

  /** A queued start carries the record of the thread it starts. */
  predicate Ready(e: Entry) {
    e.Launch? ==> e.task.kind.Start? && e.thread.record == Record(e.thread.id, e.task.kind.boot)
  }

  /** `thread.start` was called for the thread and returned 0. */
  predicate WasStarted(taken: seq<Entry>, id: nat) {
    exists e :: e in taken && e.Launch? && e.thread.id == id && Started(e.task)
  }

  /** A thread that runs: its completion has not been reported. */
  predicate CanComplete(s: State, id: nat) {
    id !in s.completed && WasStarted(s.taken, id)
  }

  /** What holds between any two events, and also while a tick runs. */
  ghost predicate Inv(s: State) {
    && s.handlers == (if s.idleActive then 1 else 0)
    && (s.queue != [] ==> s.idleActive)
    && s.enqueued == s.taken + s.queue
    && 1 <= s.next && Ids(s.enqueued) == UpTo(s.next)
    && (forall e :: e in s.enqueued ==> Ready(e))
    && (forall id :: id in s.threads <==> 1 <= id < s.next && id !in s.completed)
    && (forall id :: id in s.threads ==> s.threads[id].id == id)
    && (forall e :: e in s.enqueued && e.Launch? && e.thread.id in s.threads ==> s.threads[e.thread.id] == e.thread)
    && (forall id :: id in s.completed ==> WasStarted(s.taken, id))
  }

  lemma EnqueueInv(s: State, e: Entry)
    requires s.handlers == (if s.idleActive then 1 else 0)
    requires s.queue != [] ==> s.idleActive
    requires s.enqueued == s.taken + s.queue
    ensures var t := Enqueue(s, e);
            && t.handlers == 1 && t.idleActive && t.enqueued == t.taken + t.queue
            && Ids(t.enqueued) == Ids(s.enqueued) + if e.Launch? then [e.thread.id] else []
  {
    Associative(s.taken, s.queue, [e]);
    assert (s.enqueued + [e])[..|s.enqueued|] == s.enqueued;
  }

  lemma DoCallInv(s: State, t: Task)
    requires Inv(s)
    ensures Inv(DoCall(s, t))
  {
    hide Ids, Record, UpTo;
    NextId(s.next);
    CompletedBelow(s);
    if t.kind.Job? {
      EnqueueInv(s, Run(t));
    } else {
      var thread := Thread(s.next, Record(s.next, t.kind.boot));
      var s1 := s.(next := s.next + 1, threads := s.threads[s.next := thread]);
      EnqueueInv(s1, Launch(t, thread));
      IdsBelow(s);
    }
  }

  lemma NextId(next: nat)
    requires 1 <= next
    ensures UpTo(next + 1) == UpTo(next) + [next]
  {
  }

  lemma IdsBelow(s: State)
    requires Inv(s)
    ensures forall e :: e in s.enqueued && e.Launch? ==> 1 <= e.thread.id < s.next
  {
    hide Ids;
    UpToAt(s.next);
    forall e | e in s.enqueued && e.Launch? ensures 1 <= e.thread.id < s.next {
      IdListed(s.enqueued, e);
      var k :| 0 <= k < |Ids(s.enqueued)| && Ids(s.enqueued)[k] == e.thread.id;
      assert UpTo(s.next)[k] == e.thread.id;
    }
  }

  lemma CompletedBelow(s: State)
    requires Inv(s)
    ensures forall id :: id in Ids(s.taken) ==> 1 <= id < s.next
    ensures forall id :: id in s.completed ==> id in Ids(s.taken) && 1 <= id < s.next
  {
    hide Ids;
    IdsConcat(s.taken, s.queue);
    UpToAt(s.next);
    forall id | id in Ids(s.taken) ensures 1 <= id < s.next {
      var k :| 0 <= k < |Ids(s.taken)| && Ids(s.taken)[k] == id;
      assert UpTo(s.next)[k] == id;
    }
    forall id | id in s.completed ensures id in Ids(s.taken) {
      var e :| e in s.taken && e.Launch? && e.thread.id == id && Started(e.task);
      IdListed(s.taken, e);
    }
  }

  lemma {:induction false} DoCallsInv(s: State, ts: seq<Task>)
    requires Inv(s)
    ensures Inv(DoCalls(s, ts))
    decreases |ts|
  {
    hide Inv;
    if ts != [] {
      DoCallInv(s, ts[0]);
      DoCallsInv(DoCall(s, ts[0]), ts[1..]);
    }
  }

  lemma StartedStays(taken: seq<Entry>, e: Entry)
    ensures forall id :: WasStarted(taken, id) ==> WasStarted(taken + [e], id)
  {
    forall id | WasStarted(taken, id) ensures WasStarted(taken + [e], id) {
      var f :| f in taken && f.Launch? && f.thread.id == id && Started(f.task);
      assert f in taken + [e];
    }
  }

  lemma TakeInv(s: State)
    requires Inv(s) && s.queue != []
    ensures Inv(s.(queue := s.queue[1..], taken := s.taken + [s.queue[0]]))
  {
    hide Ready, Ids, WasStarted;
    assert s.queue == [s.queue[0]] + s.queue[1..];
    StartedStays(s.taken, s.queue[0]);
    Associative(s.taken, [s.queue[0]], s.queue[1..]);
    IdsConcat(s.taken, [s.queue[0]]);
  }

  lemma {:induction false} DrainInv(s: State, n: nat)
    requires Inv(s) && n <= |s.queue|
    ensures Inv(DoDrain(s, n).state)
    decreases n
  {
    hide Inv;
    if n != 0 {
      var s0 := s.(queue := s.queue[1..], taken := s.taken + [s.queue[0]]);
      TakeInv(s);
      DoCallsInv(s0, Calls(s.queue[0].task));
      DoCallsQueues(s0, Calls(s.queue[0].task));
      if !Fails(s.queue[0].task) {
        DrainInv(RunHead(s), n - 1);
      }
    }
  }

  lemma DoTickInv(s: State)
    requires Inv(s)
    ensures Inv(DoTick(s).state)
  {
    hide DoDrain, Ids, Ready;
    DrainInv(s.(ticks := s.ticks + 1), |s.queue|);
  }

  function DoComplete(s: State, id: nat, calls: seq<Task>): State {
    DoCalls(s.(threads := s.threads - {id}, completed := s.completed + {id}), calls)
  }

  lemma DoCompleteInv(s: State, id: nat, calls: seq<Task>)
    requires Inv(s) && CanComplete(s, id)
    ensures Inv(DoComplete(s, id, calls))
  {
    DoCallsInv(s.(threads := s.threads - {id}, completed := s.completed + {id}), calls);
  }

  lemma {:induction false} IdListed(q: seq<Entry>, e: Entry)
    requires e in q && e.Launch?
    ensures e.thread.id in Ids(q)
    decreases |q|
  {
    if e != q[|q| - 1] {
      assert q == q[..|q| - 1] + [q[|q| - 1]];
      IdListed(q[..|q| - 1], e);
    }
  }

  /** What can happen between two ticks, and the ticks. `Requested` is a call of `nextTick` or `spawn` from outside
      a queued function; `Completed` is the end of a thread, with the calls its `onComplete` makes. */
  datatype Event =
    | Requested(task: Task)
    | OpenFailed
    | Idle
    | Completed(id: nat, calls: seq<Task>)

  /** An event that cannot happen changes nothing. */
  function Apply(s: State, e: Event): State {
    match e
    case Requested(t) => DoCall(s, t)
    case OpenFailed => s
    case Idle => if s.handlers == 0 then s else DoTick(s).state
    case Completed(id, calls) => if CanComplete(s, id) then DoComplete(s, id, calls) else s
  }

  /** The state after the events, which may come in any order from any caller. */
  function RunFrom(s: State, es: seq<Event>): State {
    if es == [] then s else Apply(RunFrom(s, es[..|es| - 1]), es[|es| - 1])
  }

  function RunAll(es: seq<Event>): State {
    RunFrom(INITIAL, es)
  }

  lemma ApplyInv(s: State, e: Event)
    requires Inv(s)
    ensures Inv(Apply(s, e))
  {
    hide Inv, CanComplete;
    match e
    case Requested(t) => DoCallInv(s, t);
    case OpenFailed =>
    case Idle => DoTickInv(s);
    case Completed(id, calls) => if CanComplete(s, id) { DoCompleteInv(s, id, calls); }
  }

  lemma {:induction false} RunFromInv(s: State, es: seq<Event>)
    requires Inv(s)
    ensures Inv(RunFrom(s, es))
    decreases |es|
  {
    hide Inv;
    if es != [] {
      RunFromInv(s, es[..|es| - 1]);
      ApplyInv(RunFrom(s, es[..|es| - 1]), es[|es| - 1]);
    }
  }

  lemma {:induction false} RunInv(es: seq<Event>)
    ensures Inv(RunAll(es))
  {
    assert Ids([]) == UpTo(1);
    RunFromInv(INITIAL, es);
  }

  /** Safety of the scheduler over every run: `idleActive` tells whether the idle callback is registered, it never is
      registered twice, queued functions never wait without it; and every function ever queued has been taken off
      once, in the order of queueing, or is still in the queue. */
  lemma {:induction false} SchedulerSafe(es: seq<Event>)
    ensures var s := RunAll(es);
            && s.handlers <= 1 && (s.idleActive <==> s.handlers == 1)
            && (s.queue != [] ==> s.idleActive)
            && s.enqueued == s.taken + s.queue
  {
    RunInv(es);
  }

  /** Only a tick that throws nothing and leaves nothing in the queue switches the idle callback off. */
  lemma {:induction false} SwitchedOffOnlyWhenEmpty(es: seq<Event>, e: Event)
    ensures var s, t := RunAll(es), Apply(RunAll(es), e);
            s.idleActive && !t.idleActive ==>
              && e == Idle && t.queue == []
              && forall f :: f in s.queue && f.task.throws ==> f.task.kind.Start? && f.task.kind.status == 0
  {
    hide DoDrain, DoCalls;
    var s := RunAll(es);
    RunInv(es);
    ApplyInv(s, e);
    match e
    case Requested(t) =>
    case OpenFailed =>
    case Idle => if s.idleActive { TickEffect(s); }
    case Completed(id, calls) =>
      DoCallsQueues(s.(threads := s.threads - {id}, completed := s.completed + {id}), calls);
  }

  /** The thread decodes its id, modulo 256, and the descriptor and texts it was spawned with. */
  predicate BootsAsSpawned(e: Entry)
    requires e.Launch?
  {
    && e.task.kind.Start?
    && var b := e.task.kind.boot;
       Decode(e.thread.record) == Some(Worker(e.thread.id % 0x100, b.fd % 0x1_0000_0000, b.env, b.args))
  }

  /** Threads over every run: ids are handed out from 1 upwards; starts are attempted in the order of the ids, each
      once; those not attempted yet are in the queue; and each thread gets its own record. */
  lemma {:induction false} StartsInOrder(es: seq<Event>)
    ensures var s := RunAll(es);
            && Ids(s.taken) + Ids(s.queue) == UpTo(s.next)
            && forall e :: e in s.enqueued && e.Launch? ==> BootsAsSpawned(e)
  {
    hide Decode, Record, RunAll, Ids;
    var s := RunAll(es);
    RunInv(es);
    IdsConcat(s.taken, s.queue);
    forall e | e in s.enqueued && e.Launch? ensures BootsAsSpawned(e) {
      assert Ready(e);
      RecordRoundTrip(e.thread.id, e.task.kind.boot);
    }
  }

  lemma {:induction false} SameIdSameEntry(q: seq<Entry>, next: nat, e: Entry, f: Entry)
    requires 1 <= next && Ids(q) == UpTo(next)
    requires e in q && f in q && e.Launch? && f.Launch? && e.thread.id == f.thread.id
    ensures e == f
    decreases |q|
  {
    var front, last := q[..|q| - 1], q[|q| - 1];
    assert q == front + [last];
    UpToAt(next);
    if last.Launch? {
      assert UpTo(next) == UpTo(next - 1) + [next - 1];
      assert Ids(q) == Ids(front) + [last.thread.id];
      assert Ids(front) == Ids(q)[..|Ids(q)| - 1] && UpTo(next - 1) == UpTo(next)[..|UpTo(next)| - 1];
      UpToAt(next - 1);
      if e in front { IdListed(front, e); }
      if f in front { IdListed(front, f); }
      if e in front && f in front { SameIdSameEntry(front, next - 1, e, f); }
    } else {
      SameIdSameEntry(front, next, e, f);
    }
  }

  /** The table holds exactly the threads spawned whose completion has not been reported, each under its own id. */
  lemma {:induction false} ThreadTable(es: seq<Event>)
    ensures var s := RunAll(es);
            && (forall id :: id in s.threads <==> 1 <= id < s.next && id !in s.completed)
            && (forall id :: id in s.threads ==> s.threads[id].id == id)
            && (forall e :: e in s.enqueued && e.Launch? && e.thread.id in s.threads ==>
                  s.threads[e.thread.id] == e.thread)
            && (forall id :: id in s.completed ==> id in Ids(s.taken) && 1 <= id < s.next)
  {
    RunInv(es);
    CompletedBelow(RunAll(es));
  }

  /** A thread whose start was attempted can leave the table exactly if the start returned 0. One that could not be
      started stays in the table whatever happens afterwards. */
  lemma {:induction false} LeavesTableExactlyIfStarted(es: seq<Event>, e: Entry)
    requires e in RunAll(es).taken && e.Launch?
    ensures e.task.kind.Start?
    ensures e.task.kind.status == 0 <==>
              CanComplete(RunAll(es), e.thread.id) || e.thread.id in RunAll(es).completed
    ensures e.task.kind.status == 0 && e.thread.id in RunAll(es).threads <==> CanComplete(RunAll(es), e.thread.id)
    ensures e.task.kind.status != 0 ==> e.thread.id in RunAll(es).threads
  {
    hide RunAll, Ids;
    var s := RunAll(es);
    RunInv(es);
    CompletedBelow(s);
    IdListed(s.taken, e);
    assert e in s.enqueued && Ready(e);
    if WasStarted(s.taken, e.thread.id) {
      var f :| f in s.taken && f.Launch? && f.thread.id == e.thread.id && Started(f.task);
      assert e in s.enqueued && f in s.enqueued;
      SameIdSameEntry(s.enqueued, s.next, e, f);
    }
  }

  /** What each event does, on the fields. */
  lemma {:induction false} EventEffect(s: State, e: Event)
    requires Inv(s)
    ensures var t := Apply(s, e);
            && (e.Requested? ==> TasksOf(t.queue) == TasksOf(s.queue) + [e.task] && s.queue <= t.queue
                                 && t.taken == s.taken && t.ticks == s.ticks && t.completed == s.completed)
            && (e.OpenFailed? ==> t == s)
            && (e.Completed? && CanComplete(s, e.id) ==>
                  && TasksOf(t.queue) == TasksOf(s.queue) + e.calls && s.queue <= t.queue
                  && t.taken == s.taken && t.ticks == s.ticks
                  && t.completed == s.completed + {e.id} && e.id !in t.threads)
            && (e.Completed? && !CanComplete(s, e.id) ==> t == s)
            && (e.Idle? && s.queue != [] ==> t.ticks == s.ticks + 1 && |s.taken| < |t.taken|)
            && (e.Idle? ==> t.completed == s.completed)
  {
    hide DoCalls, TasksOf, DoTick, Inv, CanComplete;
    match e
    case Requested(task) =>
      OneCall(s, task);
      DoCallsQueues(s, [task]);
    case OpenFailed =>
    case Idle =>
      QueueActive(s);
      Registered(s);
      if s.idleActive {
        TickEffect(s);
        TickCompletes(s);
        DrainAll(s);
      }
    case Completed(id, calls) =>
      if CanComplete(s, id) {
        DoCallsQueues(s.(threads := s.threads - {id}, completed := s.completed + {id}), calls);
        ApplyInv(s, e);
        Gone(Apply(s, e), id);
      }
  }

  lemma Gone(s: State, id: nat)
    requires Inv(s) && id in s.completed
    ensures id !in s.threads
  {
  }

  lemma OneCall(s: State, task: Task)
    ensures DoCalls(s, [task]) == DoCall(s, task)
  {
    assert [task][1..] == [];
  }

  lemma {:induction false} DrainCompletes(s: State, n: nat)
    requires n <= |s.queue|
    ensures DoDrain(s, n).state.completed == s.completed
    decreases n
  {
    hide DoCalls;
    if n != 0 {
      DoCallsQueues(s.(queue := s.queue[1..], taken := s.taken + [s.queue[0]]), Calls(s.queue[0].task));
      if !Fails(s.queue[0].task) {
        DrainCompletes(RunHead(s), n - 1);
      }
    }
  }

  lemma TickFields(s: State)
    requires Inv(s) && 0 < s.handlers
    ensures s.idleActive && Inv(DoTick(s).state) && DoTick(s).state.completed == s.completed
    ensures 0 < DoTick(s).state.handlers <==> DoTick(s).threw || DoTick(s).state.queue != []
    ensures var r := DoTick(s);
            var n := |r.state.taken| - |s.taken|;
            && 0 <= n <= |s.queue| && r.state.taken == s.taken + s.queue[..n]
            && (r.threw ==> 0 < n && s.queue[n - 1].task.throws
                            && (s.queue[n - 1].task.kind.Job? || s.queue[n - 1].task.kind.status != 0))
            && (!r.threw ==> n == |s.queue|)
            && (forall i :: 0 <= i < (if r.threw then n - 1 else n) && s.queue[i].task.throws ==>
                  s.queue[i].task.kind.Start? && s.queue[i].task.kind.status == 0)
            && s.queue[n..] <= r.state.queue
            && TasksOf(r.state.queue) == TasksOf(s.queue)[n..] + Children(TasksOf(s.queue)[..n])
            && r.state.ticks == s.ticks + 1
  {
    hide Inv, DoTick, TasksOf, Children;
    Registered(s);
    DoTickInv(s);
    Registered(DoTick(s).state);
    TickEffect(s);
    TickCompletes(s);
  }

  /** The idle callback, drain and switch. */
  lemma TickParts(s: State)
    ensures var r := DoDrain(s.(ticks := s.ticks + 1), |s.queue|);
            DoTick(s) == if !r.threw && r.state.queue == [] then
                           r.(state := r.state.(idleActive := false, handlers := 0))
                         else r
  {
  }

  lemma TickCompletes(s: State)
    ensures DoTick(s).state.completed == s.completed
  {
    hide DoDrain;
    DrainCompletes(s.(ticks := s.ticks + 1), |s.queue|);
  }

  /** What an event asks for from outside queued functions: a call of `nextTick` or `spawn`, or the calls that
      `onComplete` makes. */
  function AskedBy(s: State, e: Event): seq<Task> {
    if e.Requested? then [e.task]
    else if e.Completed? && CanComplete(s, e.id) then e.calls
    else []
  }

  function Asked(es: seq<Event>): seq<Task> {
    if es == [] then [] else Asked(es[..|es| - 1]) + AskedBy(RunAll(es[..|es| - 1]), es[|es| - 1])
  }

  /** Over every run: what was ever queued is what was asked for, and what the functions that ran have called; no
      more and no less. */
  lemma {:induction false} QueuedExactly(es: seq<Event>)
    ensures var s := RunAll(es);
            multiset(TasksOf(s.enqueued)) == multiset(Asked(es)) + multiset(Children(TasksOf(s.taken)))
    decreases |es|
  {
    hide Inv, Apply, Children, TasksOf, AskedBy;
    if es == [] {
      NothingQueued();
    } else {
      var front, last := es[..|es| - 1], es[|es| - 1];
      QueuedExactly(front);
      RunInv(front);
      var s, t := RunAll(front), Apply(RunAll(front), last);
      EventQueues(s, last);
      Cancel(multiset(TasksOf(t.enqueued)), multiset(Asked(front)) + multiset(AskedBy(s, last))
               + multiset(Children(TasksOf(t.taken))), multiset(Children(TasksOf(s.taken))));
      assert RunAll(es) == t && Asked(es) == Asked(front) + AskedBy(s, last);
    }
  }

  lemma Cancel(a: multiset<Task>, b: multiset<Task>, c: multiset<Task>)
    requires a + c == b + c
    ensures a == b
  {
    forall t ensures a[t] == b[t] {
      assert (a + c)[t] == (b + c)[t];
    }
  }

  lemma NothingQueued()
    ensures multiset(TasksOf(INITIAL.enqueued)) == multiset(Asked([])) + multiset(Children(TasksOf(INITIAL.taken)))
  {
    assert TasksOf([]) == [];
  }

  lemma EventQueues(s: State, e: Event)
    requires Inv(s)
    ensures var t := Apply(s, e);
            multiset(TasksOf(t.enqueued)) + multiset(Children(TasksOf(s.taken)))
              == multiset(TasksOf(s.enqueued)) + multiset(AskedBy(s, e)) + multiset(Children(TasksOf(t.taken)))
  {
    hide Inv, Apply, Children, TasksOf, CanComplete;
    ApplyInv(s, e);
    QueuedParts(s);
    QueuedParts(Apply(s, e));
    if e.Idle? {
      IdleQueues(s, e);
    } else {
      EventEffect(s, e);
    }
  }

  lemma QueuedParts(s: State)
    requires Inv(s)
    ensures multiset(TasksOf(s.enqueued)) == multiset(TasksOf(s.taken)) + multiset(TasksOf(s.queue))
  {
    TasksOfConcat(s.taken, s.queue);
  }

  lemma IdleQueues(s: State, e: Event)
    requires Inv(s) && e.Idle?
    ensures var t := Apply(s, e);
            multiset(TasksOf(t.taken)) + multiset(TasksOf(t.queue)) + multiset(Children(TasksOf(s.taken)))
              == multiset(TasksOf(s.taken)) + multiset(TasksOf(s.queue)) + multiset(Children(TasksOf(t.taken)))
  {
    hide DoTick, Children, TasksOf, Inv, Calls, Fails;
    Registered(s);
    if s.idleActive {
      TickQueues(s);
      var t, q := Apply(s, e), TasksOf(s.queue);
      var n := |t.taken| - |s.taken|;
      Parts(TasksOf(s.taken), q[..n], q[n..], Children(TasksOf(s.taken)), Children(q[..n]));
    }
  }

  lemma TickQueues(s: State)
    requires Inv(s) && s.idleActive
    ensures var t, q := DoTick(s).state, TasksOf(s.queue);
            var n := |t.taken| - |s.taken|;
            && 0 <= n <= |q| && q == q[..n] + q[n..]
            && TasksOf(t.taken) == TasksOf(s.taken) + q[..n]
            && TasksOf(t.queue) == q[n..] + Children(q[..n])
            && Children(TasksOf(t.taken)) == Children(TasksOf(s.taken)) + Children(q[..n])
  {
    hide DoTick, Children, TasksOf, Inv, Calls, Fails;
    TickEffect(s);
    var t, q := DoTick(s).state, TasksOf(s.queue);
    var n := |t.taken| - |s.taken|;
    TasksOfConcat(s.taken, s.queue[..n]);
    TasksOfTake(s.queue, n);
    ChildrenConcat(TasksOf(s.taken), q[..n]);
  }

  lemma Parts(a: seq<Task>, b: seq<Task>, c: seq<Task>, d: seq<Task>, e: seq<Task>)
    ensures multiset(a + b) + multiset(c + e) + multiset(d) == multiset(a) + multiset(b + c) + multiset(d + e)
  {
  }

  lemma TasksOfTake(q: seq<Entry>, n: nat)
    requires n <= |q|
    ensures TasksOf(q[..n]) == TasksOf(q)[..n]
  {
  }

  /** Over every run, the completions recorded are those that the run reports of threads that were running. */
  lemma {:induction false} CompletedExactly(es: seq<Event>, id: nat)
    ensures id in RunAll(es).completed <==>
              exists i :: 0 <= i < |es| && es[i].Completed? && es[i].id == id && CanComplete(RunAll(es[..i]), id)
    decreases |es|
  {
    hide Inv, Apply, CanComplete, TasksOf;
    if es != [] {
      var front, last := es[..|es| - 1], es[|es| - 1];
      CompletedExactly(front, id);
      RunInv(front);
      EventEffect(RunAll(front), last);
      if i :| 0 <= i < |front| && front[i].Completed? && front[i].id == id && CanComplete(RunAll(front[..i]), id) {
        assert es[i] == front[i] && es[..i] == front[..i];
      }
      if i :| 0 <= i < |es| && es[i].Completed? && es[i].id == id && CanComplete(RunAll(es[..i]), id) {
        assert i < |front| ==> front[i] == es[i] && front[..i] == es[..i];
      }
    }
  }

  // ----- running until nothing is left

  /** The state after `k` turns of the event loop, with no other events. */
  function Idles(s: State, k: nat): State
    decreases k
  {
    if k == 0 then s else Idles(Apply(s, Idle), k - 1)
  }

  /** From any state that a run can reach, `Ticks` turns of the loop run everything queued and everything that this
      queues, in level order, also when functions throw. Only the last of them switches the idle callback off. */
  lemma {:induction false} IdlesSettle(s: State)
    requires Inv(s) && s.idleActive
    ensures var q := TasksOf(s.queue);
            var t := Idles(s, Ticks(q));
            && Inv(t) && t.queue == [] && !t.idleActive
            && t.ticks == s.ticks + Ticks(q)
            && TasksOf(t.taken) == TasksOf(s.taken) + LevelOrder(q)
    ensures forall k: nat :: k < Ticks(TasksOf(s.queue)) ==> Idles(s, k).idleActive
    decreases Weight(TasksOf(s.queue))
  {
    hide Inv, DoTick, Fifo, LevelOrder, After;
    var q, r := TasksOf(s.queue), DoTick(s).state;
    var n := RanCount(q);
    DoTickInv(s);
    DrainAll(s);
    IdleTicks(s);
    FifoIsLevelOrder(q);
    FifoAcrossTick(q);
    assert TasksOf(s.taken + s.queue[..n]) == TasksOf(s.taken) + q[..n];
    if AnyFails(q) || After(q) != [] {
      TickDecreases(q);
      IdlesSettle(r);
      FifoIsLevelOrder(After(q));
      Associative(TasksOf(s.taken), q[..n], Fifo(After(q)));
      forall k: nat | k < Ticks(q) ensures Idles(s, k).idleActive {
        if k != 0 {
          assert Idles(s, k) == Idles(r, k - 1);
        }
      }
    } else {
      NothingLeft();
      assert Idles(s, 1) == Idles(r, 0) == r;
      assert q[..n] + [] == q[..n];
      assert TasksOf(r.queue) == [];
    }
  }

  lemma NothingLeft()
    ensures Fifo([]) == []
  {
  }

  lemma IdleTicks(s: State)
    requires Inv(s) && s.idleActive
    ensures Apply(s, Idle) == DoTick(s).state
  {
  }

  lemma FifoAcrossTick(q: seq<Task>)
    ensures Fifo(q) == q[..RanCount(q)] + Fifo(After(q))
  {
    hide Fifo, RanCount, Children;
    FifoStretch(q[..RanCount(q)], q[RanCount(q)..]);
    assert q == q[..RanCount(q)] + q[RanCount(q)..];
  }

  /** The turns until the idle callback is gone: none if it is not registered. */
  function Turns(s: State): nat {
    if s.idleActive then Ticks(TasksOf(s.queue)) else 0
  }

  /** From `s` to `t` everything queued, and everything that this queued, has run: once each and level by level, in
      one turn for each level and at most one more for each function that throws. (A callback left registered by a
      throw, with nothing queued, takes one turn to go.) The start of every thread spawned by then has been attempted
      once, in the order of the ids. */
  ghost predicate Settled(s: State, t: State) {
    var q := TasksOf(s.queue);
    && t.queue == [] && !t.idleActive && t.handlers == 0
    && TasksOf(t.taken) == TasksOf(s.taken) + LevelOrder(q)
    && multiset(LevelOrder(q)) == multiset(Nodes(q))
    && (q != [] ==> Height(q) <= t.ticks - s.ticks <= Height(q) + FailCount(q))
    && (q == [] ==> t.ticks - s.ticks == if s.idleActive then 1 else 0)
    && Ids(t.taken) == UpTo(t.next)
  }

  /** The main theorem of the scheduler: whatever has happened before, the loop settles when left to itself. */
  lemma {:induction false} SettlesInLevelOrder(es: seq<Event>)
    ensures Settled(RunAll(es), Idles(RunAll(es), Turns(RunAll(es))))
  {
    hide Inv, Settled, Idles, RunAll;
    RunInv(es);
    Settles(RunAll(es));
  }

  lemma {:induction false} Settles(s: State)
    requires Inv(s)
    ensures Settled(s, Idles(s, Turns(s)))
  {
    hide Inv, LevelOrder, Fifo, Nodes, FailCount, Idles, Ids, UpTo, Ticks, Height, TasksOf;
    var q, t := TasksOf(s.queue), Idles(s, Turns(s));
    FifoIsLevelOrder(q);
    FifoRunsAll(q);
    TicksByFails(q);
    HeightOfChildren(q);
    QueueActive(s);
    if s.idleActive {
      IdlesSettle(s);
      if q == [] {
        NothingThrows();
      }
    } else {
      IdlesStart(s);
      NothingLeft();
      assert TasksOf(s.taken) + LevelOrder(q) == TasksOf(s.taken);
    }
    Registered(t) by { IdlesInv(s, Turns(s)); }
    AllAttempted(t) by { IdlesInv(s, Turns(s)); }
  }

  lemma NothingThrows()
    ensures FailCount([]) == 0 && Height([]) == 0
  {
  }

  lemma QueueActive(s: State)
    requires Inv(s)
    ensures s.queue != [] <==> TasksOf(s.queue) != []
    ensures s.queue != [] ==> s.idleActive
  {
  }

  lemma AllAttempted(s: State)
    requires Inv(s) && s.queue == []
    ensures Ids(s.taken) == UpTo(s.next)
  {
    assert s.enqueued == s.taken;
  }

  /** Without throws, as many turns as `k` leave the queue that `AfterTicks` describes, if it is not empty before. */
  lemma {:induction false} IdlesQueue(s: State, k: nat)
    requires Inv(s) && s.idleActive && FailCount(TasksOf(s.queue)) == 0 && k < Height(TasksOf(s.queue))
    ensures var t := Idles(s, k);
            Inv(t) && t.idleActive && TasksOf(t.queue) == AfterTicks(TasksOf(s.queue), k)
    decreases k
  {
    hide Inv, DoTick, FailCount, Height, After, TasksOf, AnyFails, RanCount;
    if k != 0 {
      var q := TasksOf(s.queue);
      DrainAll(s);
      DoTickInv(s);
      IdleTicks(s);
      NoFails(q);
      AfterWithoutFails(q);
      AfterFails(q);
      HeightOfChildren(q);
      HeightOfChildren(After(q));
      IdlesQueue(DoTick(s).state, k - 1);
    }
  }

  /** Without throws, turn number `k + 1` runs exactly the functions `k` levels below those in the queue now. */
  lemma {:induction false} TurnRunsLevel(s: State, k: nat)
    requires Inv(s) && k < Height(TasksOf(s.queue))
    requires forall t :: t in Nodes(TasksOf(s.queue)) && t.throws ==> t.kind.Start? && t.kind.status == 0
    ensures var before, after := Idles(s, k), Idles(s, k + 1);
            TasksOf(after.taken) == TasksOf(before.taken) + AtDepth(TasksOf(s.queue), k)
  {
    hide Inv, DoTick, AtDepth, FailCount, Height, After, TasksOf, AnyFails, Nodes;
    var q, t := TasksOf(s.queue), Idles(s, k);
    NoThrows(q);
    LevelsTicked(q, k);
    HeightOfChildren(q);
    QueueActive(s);
    IdlesQueue(s, k);
    TickRunsLevel(q, k);
    DrainAll(t);
    IdleTicks(t);
    IdlesStep(s, k);
    TasksOfConcat(t.taken, t.queue);
    assert t.queue[..|t.queue|] == t.queue;
  }

  // ----- the runtime itself

  /** The variables of the module, with the history of the queue kept alongside. */
  class Process {
    var queue: seq<Entry>
    var idleActive: bool
    var handlers: nat
    var ticks: nat
    var next: nat
    var threads: map<nat, Thread>
    ghost var enqueued: seq<Entry>
    ghost var taken: seq<Entry>
    ghost var completed: set<nat>

    ghost function Abs(): State
      reads this
    {
      State(queue, idleActive, handlers, ticks, next, threads, enqueued, taken, completed)
    }

    ghost predicate Valid()
      reads this
    {
      Inv(Abs())
    }

    constructor ()
      ensures Valid() && Abs() == INITIAL
      ensures queue == [] && !idleActive && handlers == 0 && ticks == 0 && next == 1 && threads == map[]
      ensures taken == [] && completed == {}
    {
      queue, idleActive, handlers, ticks := [], false, 0, 0;
      next, threads := 1, map[];
      enqueued, taken, completed := [], [], {};
    }

    /** `process.nextTick`. */
    method NextTick(fn: Entry)
      modifies this
      ensures Abs() == Enqueue(old(Abs()), fn)
      ensures queue == old(queue) + [fn] && enqueued == old(enqueued) + [fn] && idleActive
      ensures handlers == if old(idleActive) then old(handlers) else old(handlers) + 1
      ensures ticks == old(ticks) && next == old(next) && threads == old(threads)
      ensures taken == old(taken) && completed == old(completed)
      ensures old(Valid()) && fn.Run? && fn.task.kind.Job? ==> Valid()
    {
      if Valid() && fn.Run? && fn.task.kind.Job? {
        DoCallInv(Abs(), fn.task);
      }
      queue := queue + [fn];
      enqueued := enqueued + [fn];
      if idleActive { return; }
      handlers := handlers + 1;
      idleActive := true;
    }

    /** `process.spawn`. `fd` is what `sock.open` returned, if the thread is to have a socket; a negative value is
        thrown as an error. The rest is what will come of the start: the `status` it returns and, if that is not 0,
        what `onComplete` `calls` and whether it `throws`. */
    method Spawn(env: Text, args: Text, fd: Option<int>, status: int, calls: seq<Task>, throws: bool)
        returns (thread: Option<Thread>)
      modifies this
      ensures fd.Some? && fd.value < 0 ==> thread == None && Abs() == old(Abs())
      ensures !(fd.Some? && fd.value < 0) ==>
                var boot := Boot(if fd.Some? then fd.value else 0, env, args);
                && Abs() == AddThread(old(Abs()), Task(Start(boot, status), calls, throws))
                && thread == Some(Thread(old(next), Record(old(next), boot)))
                && next == old(next) + 1 && threads == old(threads)[old(next) := thread.value]
                && queue == old(queue) + [Launch(Task(Start(boot, status), calls, throws), thread.value)]
                && idleActive && ticks == old(ticks) && taken == old(taken) && completed == old(completed)
      ensures old(Valid()) ==> Valid()
    {
      hide Inv;
      var buffer := new byte[|env| + |args| + 13];
      if fd.Some? && fd.value < 0 { return None; }
      var boot := Boot(if fd.Some? then fd.value else 0, env, args);
      if Valid() {
        DoCallInv(Abs(), Task(Start(boot, status), calls, throws));
      }
      var id := next;
      next := next + 1;
      WriteRecord(buffer, id, boot);
      var t := Thread(id, buffer[..]);
      threads := threads[id := t];
      NextTick(Launch(Task(Start(boot, status), calls, throws), t));
      return Some(t);
    }

    /** A queued function runs: it makes its calls, and returns or throws. The start of a thread that returns 0 does
        neither. */
    method Invoke(fn: Entry) returns (threw: bool)
      modifies this
      ensures Abs() == DoCalls(old(Abs()), Calls(fn.task))
      ensures threw == Fails(fn.task)
      ensures fn.task.kind.Start? && fn.task.kind.status == 0 ==> queue == old(queue) && !threw
      ensures fn.task.kind.Job? || fn.task.kind.status != 0 ==>
                TasksOf(queue) == TasksOf(old(queue)) + fn.task.calls && threw == fn.task.throws
      ensures taken == old(taken) && ticks == old(ticks) && completed == old(completed)
    {
      hide TasksOf;
      NoCalls(Abs());
      MakeCalls(Calls(fn.task));
      threw := Fails(fn.task);
    }

    method MakeCalls(calls: seq<Task>)
      modifies this
      ensures Abs() == DoCalls(old(Abs()), calls)
      ensures TasksOf(queue) == TasksOf(old(queue)) + calls
      ensures taken == old(taken) && ticks == old(ticks) && completed == old(completed)
    {
      DoCallsQueues(Abs(), calls);
      var i := 0;
      while i < |calls|
        invariant i <= |calls|
        invariant DoCalls(Abs(), calls[i..]) == DoCalls(old(Abs()), calls)
      {
        var t := calls[i];
        match t.kind {
          case Job => NextTick(Run(t));
          case Start(boot, status) =>
            var _ := Spawn(boot.env, boot.args, Some(boot.fd), status, t.calls, t.throws);
        }
        assert calls[i..][1..] == calls[i + 1..];
        i := i + 1;
      }
    }

    /** The idle callback, which the event loop calls while it is registered. */
    method Tick() returns (threw: bool)
      requires Valid() && 0 < handlers
      modifies this
      ensures Valid() && Drained(Abs(), threw) == DoTick(old(Abs()))
      ensures var n := |taken| - |old(taken)|;
              && 0 <= n <= |old(queue)| && taken == old(taken) + old(queue)[..n]
              && (threw ==> 0 < n && old(queue)[n - 1].task.throws
                            && (old(queue)[n - 1].task.kind.Job? || old(queue)[n - 1].task.kind.status != 0))
              && (!threw ==> n == |old(queue)|)
              && (forall i :: 0 <= i < (if threw then n - 1 else n) && old(queue)[i].task.throws ==>
                    old(queue)[i].task.kind.Start? && old(queue)[i].task.kind.status == 0)
              && old(queue)[n..] <= queue
              && TasksOf(queue) == TasksOf(old(queue))[n..] + Children(TasksOf(old(queue))[..n])
      ensures ticks == old(ticks) + 1 && completed == old(completed)
      ensures 0 < handlers <==> threw || queue != []
    {
      hide Inv, DoDrain, TasksOf, Children, DoTick;
      TickFields(Abs());
      TickParts(Abs());
      ticks := ticks + 1;
      threw := RunQueue();
      if threw { return; }
      if |queue| == 0 {
        idleActive := false;
        handlers := 0;
      }
    }

    /** The loop of the idle callback: as many functions as there are in the queue now, unless one throws. */
    method RunQueue() returns (threw: bool)
      modifies this
      ensures Drained(Abs(), threw) == DoDrain(old(Abs()), |old(queue)|)
    {
      hide DoCalls, Calls, Fails, TasksOf;
      ghost var s1 := Abs();
      var len: nat := |queue|;
      while 0 < len
        invariant len <= |queue|
        invariant DoDrain(Abs(), len) == DoDrain(s1, |s1.queue|)
      {
        ghost var s := Abs();
        len := len - 1;
        var fun := queue[0];
        queue := queue[1..];
        taken := taken + [fun];
        DoCallsQueues(Abs(), Calls(fun.task));
        threw := Invoke(fun);
        assert Abs() == RunHead(s);
        if threw { return; }
      }
      threw := false;
    }

    /** The end of a thread, reported by its completion callback. */
    method Complete(id: nat, calls: seq<Task>)
      requires Valid() && CanComplete(Abs(), id)
      modifies this
      ensures Valid() && Abs() == DoComplete(old(Abs()), id, calls)
      ensures TasksOf(queue) == TasksOf(old(queue)) + calls
      ensures completed == old(completed) + {id} && id !in threads
      ensures taken == old(taken) && ticks == old(ticks)
    {
      hide Inv, TasksOf, CanComplete, DoCalls;
      DoCompleteInv(Abs(), id, calls);
      DoCallsQueues(Abs().(threads := threads - {id}, completed := completed + {id}), calls);
      Gone(DoComplete(Abs(), id, calls), id);
      threads := threads - {id};
      completed := completed + {id};
      MakeCalls(calls);
    }

    /** One event. The loop turns the idle callback only while it is registered, and completion is reported only of a
        thread that runs. */
    method Handle(e: Event)
      requires Valid() && CanHappen(Abs(), e)
      modifies this
      ensures Valid() && Abs() == Apply(old(Abs()), e)
    {
      hide Inv;
      ApplyInv(Abs(), e);
      match e {
        case Requested(t) => MakeCalls([t]);
        case OpenFailed =>
          var thread := Spawn([], [], Some(-1), 0, [], false);
        case Idle => var threw := Tick();
        case Completed(id, calls) => Complete(id, calls);
      }
    }

    /** The event loop: `es` happens, in that order, and then nothing else, so that it only turns the idle callback
        until that is gone. It ends, and everything queued has then run. */
    method RunLoop(es: seq<Event>)
      requires Valid() && AllCanHappen(Abs(), es)
      modifies this
      ensures Valid()
      ensures var s := RunFrom(old(Abs()), es); Abs() == Idles(s, Turns(s)) && Settled(s, Abs())
    {
      hide Inv, Idles, Turns, Settled, DoTick, RunFrom;
      RunsNothing(Abs());
      assert es[..0] == [];
      for i := 0 to |es|
        invariant Valid() && Abs() == RunFrom(old(Abs()), es[..i])
      {
        NextHappens(old(Abs()), es, i);
        Handle(es[i]);
      }
      assert es[..|es|] == es;
      ghost var s, k := Abs(), 0;
      IdlesStart(s);
      Settles(s);
      while 0 < handlers
        invariant Valid() && k <= Turns(s) && Abs() == Idles(s, k)
        decreases Turns(s) - k
      {
        IdlesWhileActive(s, k);
        var threw := Tick();
        k := k + 1;
      }
      IdlesWhileActive(s, k);
    }
  }

  predicate CanHappen(s: State, e: Event) {
    && (e.Idle? ==> 0 < s.handlers)
    && (e.Completed? ==> CanComplete(s, e.id))
  }

  ghost predicate AllCanHappen(s: State, es: seq<Event>) {
    forall i :: 0 <= i < |es| ==> CanHappen(RunFrom(s, es[..i]), es[i])
  }

  lemma RunsNothing(s: State)
    ensures RunFrom(s, []) == s
  {
  }

  lemma NextHappens(s: State, es: seq<Event>, i: nat)
    requires AllCanHappen(s, es) && i < |es|
    ensures CanHappen(RunFrom(s, es[..i]), es[i])
    ensures RunFrom(s, es[..i + 1]) == Apply(RunFrom(s, es[..i]), es[i])
  {
    assert es[..i + 1][..i] == es[..i];
  }

  lemma {:induction false} IdlesStep(s: State, k: nat)
    ensures Idles(s, k + 1) == Apply(Idles(s, k), Idle)
    decreases k
  {
    if k != 0 {
      IdlesStep(Apply(s, Idle), k - 1);
    } else {
      assert Idles(s, 1) == Idles(Apply(s, Idle), 0);
    }
  }

  lemma Registered(s: State)
    requires Inv(s)
    ensures s.idleActive <==> 0 < s.handlers
  {
  }

  lemma IdlesStart(s: State)
    ensures Idles(s, 0) == s
  {
  }

  /** The loop turns as long as the idle callback is registered, and that is for `Turns` turns. */
  lemma IdlesWhileActive(s: State, k: nat)
    requires Inv(s) && k <= Turns(s)
    ensures var t := Idles(s, k);
            && (0 < t.handlers <==> k < Turns(s))
            && (0 < t.handlers ==> Idles(s, k + 1) == DoTick(t).state)
  {
    hide Inv, Ticks, Idles, LevelOrder, TasksOf;
    if s.idleActive {
      IdlesSettle(s);
    } else {
      IdlesStart(s);
    }
    IdlesInv(s, k);
    Registered(Idles(s, k));
    IdlesStep(s, k);
  }

  lemma {:induction false} IdlesInv(s: State, k: nat)
    requires Inv(s)
    ensures Inv(Idles(s, k))
    decreases k
  {
    hide Inv;
    if k != 0 {
      ApplyInv(s, Idle);
      IdlesInv(Apply(s, Idle), k - 1);
    }
  }
}
