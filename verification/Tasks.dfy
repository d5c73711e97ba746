/** The functions that `nextTick` queues, as finite trees, and the order in which a queue runs them.

  A tree shows what a function will do when it runs: which calls of `process.nextTick` and `process.spawn` it makes,
  in order, and whether it then throws. Any finite part of a run is such a forest.
 */
module Tasks {
  import opened Bytes
  import opened Handshake

  /** A `Job` is a function given to `nextTick`. A `Start` is what `spawn` queues: a call of `thread.start`, which
      returns `status`. */
  datatype Kind = Job | Start(boot: Boot, status: int)

  datatype Task = Task(kind: Kind, calls: seq<Task>, throws: bool)

  /** A thread that starts leaves its queued function nothing to do; otherwise the function calls `onComplete`. */
  predicate Started(t: Task) {
    t.kind.Start? && t.kind.status == 0
  }

  /** What a task queues when it runs. */
  function Calls(t: Task): seq<Task> {
    if Started(t) then [] else t.calls
  }

  predicate Fails(t: Task) {
    !Started(t) && t.throws
  }

  // ----- forests

  function Children(q: seq<Task>): seq<Task> {
    if q == [] then [] else Calls(q[0]) + Children(q[1..])
  }

  /** The number of nodes. */
  function Weight(q: seq<Task>): nat {
    if q == [] then 0
    else if Started(q[0]) then 1 + Weight(q[1..])
    else 1 + Weight(q[0].calls) + Weight(q[1..])
  }

  function Max(a: nat, b: nat): nat {
    if a < b then b else a
  }

  function Height(q: seq<Task>): nat
    decreases Weight(q)
  {
    if q == [] then 0 else Max(1 + Height(Calls(q[0])), Height(q[1..]))
  }

  /** The nodes `k` steps below the roots, tree by tree. */
  function AtDepth(q: seq<Task>, k: nat): seq<Task>
    decreases k, |q|
  {
    if q == [] then []
    else (if k == 0 then [q[0]] else AtDepth(Calls(q[0]), k - 1)) + AtDepth(q[1..], k)
  }

  function LevelsFrom(q: seq<Task>, k: nat): seq<Task>
    decreases Height(q) - k
  {
    if Height(q) <= k then [] else AtDepth(q, k) + LevelsFrom(q, k + 1)
  }

  /** All nodes, level by level. */
  function LevelOrder(q: seq<Task>): seq<Task> {
    LevelsFrom(q, 0)
  }

  /** All nodes, each before the nodes below it and those before the next tree. */
  function Nodes(q: seq<Task>): seq<Task>
    decreases Weight(q)
  {
    if q == [] then [] else [q[0]] + Nodes(Calls(q[0])) + Nodes(q[1..])
  }

  /** How many nodes throw. */
  function FailCount(q: seq<Task>): nat
    decreases Weight(q)
  {
    if q == [] then 0 else (if Fails(q[0]) then 1 else 0) + FailCount(Calls(q[0])) + FailCount(q[1..])
  }

  /** Running the queue from its head, each task queueing its calls at the end. */
  function Fifo(q: seq<Task>): seq<Task>
    decreases Weight(q)
  {
    if q == [] then [] else
      WeightConcat(q[1..], Calls(q[0]));
      [q[0]] + Fifo(q[1..] + Calls(q[0]))
  }

  lemma {:induction false} WeightConcat(a: seq<Task>, b: seq<Task>)
    ensures Weight(a + b) == Weight(a) + Weight(b)
    decreases |a|
  {
    if a == [] {
      assert a + b == b;
    } else {
      assert (a + b)[1..] == a[1..] + b;
      WeightConcat(a[1..], b);
    }
  }

  lemma {:induction false} HeightConcat(a: seq<Task>, b: seq<Task>)
    ensures Height(a + b) == Max(Height(a), Height(b))
    decreases |a|
  {
    if a == [] {
      assert a + b == b;
    } else {
      assert (a + b)[1..] == a[1..] + b;
      HeightConcat(a[1..], b);
    }
  }

  lemma {:induction false} ChildrenConcat(a: seq<Task>, b: seq<Task>)
    ensures Children(a + b) == Children(a) + Children(b)
    decreases |a|
  {
    hide Calls;
    if a == [] {
      assert a + b == b;
    } else {
      assert (a + b)[1..] == a[1..] + b;
      ChildrenConcat(a[1..], b);
      Associative(Calls(a[0]), Children(a[1..]), Children(b));
    }
  }

  lemma {:induction false} AtDepthConcat(a: seq<Task>, b: seq<Task>, k: nat)
    ensures AtDepth(a + b, k) == AtDepth(a, k) + AtDepth(b, k)
    decreases |a|
  {
    if a == [] {
      assert a + b == b;
    } else {
      assert (a + b)[1..] == a[1..] + b;
      AtDepthConcat(a[1..], b, k);
    }
  }

  lemma {:induction false} NodesConcat(a: seq<Task>, b: seq<Task>)
    ensures Nodes(a + b) == Nodes(a) + Nodes(b)
    decreases |a|
  {
    if a == [] {
      assert a + b == b;
    } else {
      assert (a + b)[1..] == a[1..] + b;
      NodesConcat(a[1..], b);
    }
  }

  lemma {:induction false} FailCountConcat(a: seq<Task>, b: seq<Task>)
    ensures FailCount(a + b) == FailCount(a) + FailCount(b)
    decreases |a|
  {
    if a == [] {
      assert a + b == b;
    } else {
      assert (a + b)[1..] == a[1..] + b;
      FailCountConcat(a[1..], b);
    }
  }

  // ----- level order

  lemma {:induction false} DepthOfChildren(q: seq<Task>, k: nat)
    ensures AtDepth(q, 0) == q
    ensures AtDepth(q, k + 1) == AtDepth(Children(q), k)
    decreases |q|
  {
    if q != [] {
      DepthOfChildren(q[1..], k);
      AtDepthConcat(Calls(q[0]), Children(q[1..]), k);
    }
  }

  lemma {:induction false} HeightOfChildren(q: seq<Task>)
    ensures Height(q) == if q == [] then 0 else 1 + Height(Children(q))
    decreases |q|
  {
    if q != [] {
      HeightOfChildren(q[1..]);
      HeightConcat(Calls(q[0]), Children(q[1..]));
    }
  }

  lemma {:induction false} LevelsOfChildren(q: seq<Task>, k: nat)
    requires q != []
    ensures LevelsFrom(q, k + 1) == LevelsFrom(Children(q), k)
    decreases Height(q) - k
  {
    hide Height, AtDepth, Children;
    HeightOfChildren(q);
    if k + 1 < Height(q) {
      DepthOfChildren(q, k);
      LevelsOfChildren(q, k + 1);
    }
  }

  lemma FifoStep(q: seq<Task>)
    requires q != []
    ensures Fifo(q) == [q[0]] + Fifo(q[1..] + Calls(q[0]))
  {
  }

  /** Running a stretch of the queue puts its children at the end. */
  lemma {:induction false} FifoStretch(a: seq<Task>, b: seq<Task>)
    ensures Fifo(a + b) == a + Fifo(b + Children(a))
    decreases |a|
  {
    hide Fifo, Calls;
    if a == [] {
      assert a + b == b && b + Children(a) == b;
    } else {
      var rest, cs := a[1..], Calls(a[0]);
      FifoStep(a + b);
      FifoStretch(rest, b + cs);
      assert (a + b)[1..] + cs == rest + (b + cs);
      assert b + cs + Children(rest) == b + Children(a);
      assert [a[0]] + (rest + Fifo(b + Children(a))) == a + Fifo(b + Children(a));
    }
  }

  lemma {:induction false} WeightOfChildren(q: seq<Task>)
    ensures Weight(q) == |q| + Weight(Children(q))
    decreases |q|
  {
    if q != [] {
      WeightOfChildren(q[1..]);
      WeightConcat(Calls(q[0]), Children(q[1..]));
    }
  }

  /** The queue runs a forest level by level, and each level in the order of its trees. */
  lemma {:induction false} FifoIsLevelOrder(q: seq<Task>)
    ensures Fifo(q) == LevelOrder(q)
    decreases Weight(q)
  {
    HeightOfChildren(q);
    if q != [] {
      FifoStretch(q, []);
      assert q + [] == q && [] + Children(q) == Children(q);
      WeightOfChildren(q);
      FifoIsLevelOrder(Children(q));
      DepthOfChildren(q, 0);
      LevelsOfChildren(q, 0);
    }
  }

  /** Every node runs, as often as it occurs. */
  lemma {:induction false} FifoRunsAll(q: seq<Task>)
    ensures multiset(Fifo(q)) == multiset(Nodes(q))
    decreases Weight(q)
  {
    if q != [] {
      var rest, cs := q[1..], Calls(q[0]);
      WeightConcat(rest, cs);
      FifoRunsAll(rest + cs);
      NodesConcat(rest, cs);
    }
  }

  // ----- ticks

  predicate AnyFails(q: seq<Task>) {
    exists t :: t in q && Fails(t)
  }

  /** How many of the queued tasks one tick runs: all, or those up to the first that throws. */
  function RanCount(q: seq<Task>): (n: nat)
    ensures n <= |q| && (q != [] ==> 0 < n)
    ensures !AnyFails(q) ==> n == |q|
    ensures AnyFails(q) ==> 0 < n && Fails(q[n - 1]) && !AnyFails(q[..n - 1])
  {
    if q == [] then 0
    else if Fails(q[0]) then 1
    else
      var n := 1 + RanCount(q[1..]);
      assert q == [q[0]] + q[1..];
      assert AnyFails(q) ==> q[..n - 1] == [q[0]] + q[1..][..n - 2];
      n
  }

  /** The queue after a tick: the tasks that did not get their turn, then what the others queued. */
  function After(q: seq<Task>): seq<Task> {
    q[RanCount(q)..] + Children(q[..RanCount(q)])
  }

  lemma AfterWeight(q: seq<Task>)
    ensures Weight(After(q)) == Weight(q) - RanCount(q)
  {
    hide Weight, Children;
    var a, b := q[..RanCount(q)], q[RanCount(q)..];
    assert q == a + b;
    WeightConcat(a, b);
    WeightConcat(b, Children(a));
    WeightOfChildren(a);
  }

  lemma AfterHeight(q: seq<Task>)
    ensures Height(q) - 1 <= Height(After(q)) <= Height(q)
  {
    hide Height;
    var a, b := q[..RanCount(q)], q[RanCount(q)..];
    assert q == a + b;
    HeightConcat(a, b);
    HeightConcat(b, Children(a));
    HeightOfChildren(a);
  }

  lemma AfterWithoutFails(q: seq<Task>)
    requires !AnyFails(q)
    ensures After(q) == Children(q)
  {
    hide Children;
    assert q[..RanCount(q)] == q && q[RanCount(q)..] == [];
  }

  /** The stretch of the queue that a tick runs holds at most one throwing task, as its last. */
  lemma RanStretch(q: seq<Task>)
    ensures q == q[..RanCount(q)] + q[RanCount(q)..]
    ensures var a := q[..RanCount(q)];
            && (AnyFails(a) <==> AnyFails(q))
            && (AnyFails(a) ==> !AnyFails(a[..|a| - 1]))
  {
    hide Fails, RanCount;
    var n := RanCount(q);
    var a := q[..n];
    FailsInPart(q, n);
    if AnyFails(q) {
      assert a[n - 1] == q[n - 1] && a[n - 1] in a;
      assert a[..n - 1] == q[..n - 1];
    }
  }

  lemma FailsInPart(q: seq<Task>, n: nat)
    requires n <= |q|
    ensures AnyFails(q[..n]) ==> AnyFails(q)
  {
    hide Fails;
    assert q == q[..n] + q[n..];
  }

  lemma AfterFails(q: seq<Task>)
    ensures FailCount(After(q)) == FailCount(q) - if AnyFails(q) then 1 else 0
  {
    hide FailCount, Children, RanCount, AnyFails;
    var a, b := q[..RanCount(q)], q[RanCount(q)..];
    RanStretch(q);
    FailCountConcat(a, b);
    FailCountConcat(b, Children(a));
    FailsInStretch(a);
  }

  lemma {:induction false} FailsInStretch(a: seq<Task>)
    requires AnyFails(a) ==> !AnyFails(a[..|a| - 1])
    ensures FailCount(a) == FailCount(Children(a)) + if AnyFails(a) then 1 else 0
    decreases |a|
  {
    if a != [] {
      var rest := a[1..];
      assert a == [a[0]] + rest;
      assert rest != [] ==> a[..|a| - 1] == [a[0]] + rest[..|rest| - 1];
      FailsInStretch(rest);
      FailCountConcat(Calls(a[0]), Children(rest));
    }
  }

  lemma TickDecreases(q: seq<Task>)
    requires AnyFails(q) || After(q) != []
    ensures q != [] && Weight(After(q)) < Weight(q)
  {
    AfterWeight(q);
  }

  /** The number of ticks after which the scheduler goes idle: a tick that throws, or leaves tasks, is followed by
      another. */
  function Ticks(q: seq<Task>): nat
    decreases Weight(q)
  {
    if AnyFails(q) || After(q) != [] then
      TickDecreases(q);
      1 + Ticks(After(q))
    else 1
  }

  lemma {:induction false} TicksByFails(q: seq<Task>)
    ensures FailCount(q) == 0 ==> Ticks(q) == Max(1, Height(q))
    ensures Max(FailCount(q) + 1, Height(q)) <= Ticks(q) <= Max(1, Height(q)) + FailCount(q)
    decreases Weight(q)
  {
    hide Height, After, RanCount;
    AfterHeight(q);
    AfterFails(q);
    HeightOfChildren(q);
    HeightOfChildren(After(q));
    if !AnyFails(q) {
      AfterWithoutFails(q);
    }
    if AnyFails(q) || After(q) != [] {
      TickDecreases(q);
      TicksByFails(After(q));
    }
  }

  /** Without throws there is one tick for each level. Each throw costs at most one more tick, and needs one. What
      throws is a node marked so, other than the start of a thread that returns 0. */
  lemma {:induction false} TickCount(q: seq<Task>)
    ensures (forall t :: t in Nodes(q) && t.throws ==> t.kind.Start? && t.kind.status == 0) ==>
              Ticks(q) == Max(1, Height(q))
    ensures var all := Nodes(q);
            var f := |set i | 0 <= i < |all| && all[i].throws && !(all[i].kind.Start? && all[i].kind.status == 0)|;
            Max(f + 1, Height(q)) <= Ticks(q) <= Max(1, Height(q)) + f
  {
    hide Height, FailCount, Nodes, Ticks;
    TicksByFails(q);
    FailCountsThrows(q);
    NoThrows(q);
  }

  /** The positions of the tasks that throw when they run. */
  ghost function Throwing(ts: seq<Task>): set<int> {
    set i | 0 <= i < |ts| && ts[i].throws && !(ts[i].kind.Start? && ts[i].kind.status == 0)
  }

  /** `FailCount` counts the nodes that throw. */
  lemma {:induction false} FailCountsThrows(q: seq<Task>)
    ensures var all := Nodes(q);
            FailCount(q) ==
              |set i | 0 <= i < |all| && all[i].throws && !(all[i].kind.Start? && all[i].kind.status == 0)|
  {
    hide FailCount, Nodes;
    FailCountIsThrowing(q);
  }

  lemma {:induction false} FailCountIsThrowing(q: seq<Task>)
    ensures FailCount(q) == |Throwing(Nodes(q))|
    decreases Weight(q)
  {
    hide Throwing;
    if q == [] {
      ThrowingNone();
    } else {
      var t, below, rest := q[0], Nodes(Calls(q[0])), Nodes(q[1..]);
      FailCountIsThrowing(Calls(t));
      FailCountIsThrowing(q[1..]);
      ThrowingConcat([t] + below, rest);
      ThrowingConcat([t], below);
      ThrowingNone();
      ThrowingLast([], t);
      assert [] + [t] == [t];
    }
  }

  lemma ThrowingNone()
    ensures Throwing([]) == {}
  {
  }

  lemma ThrowingLast(ts: seq<Task>, t: Task)
    ensures |Throwing(ts + [t])| == |Throwing(ts)| + if Fails(t) then 1 else 0
  {
    var all := ts + [t];
    assert all[|ts|] == t && forall i :: 0 <= i < |ts| ==> all[i] == ts[i];
    assert Throwing(all) == Throwing(ts) + if Fails(t) then {|ts|} else {};
  }

  lemma {:induction false} ThrowingConcat(a: seq<Task>, b: seq<Task>)
    ensures |Throwing(a + b)| == |Throwing(a)| + |Throwing(b)|
    decreases |b|
  {
    hide Throwing, Fails;
    if b == [] {
      assert a + b == a;
      ThrowingNone();
    } else {
      var front, last := b[..|b| - 1], b[|b| - 1];
      ThrowingConcat(a, front);
      ThrowingLast(a + front, last);
      ThrowingLast(front, last);
      assert a + front + [last] == a + b && front + [last] == b;
    }
  }

  lemma {:induction false} NoThrows(q: seq<Task>)
    ensures (forall t :: t in Nodes(q) && t.throws ==> t.kind.Start? && t.kind.status == 0) <==> FailCount(q) == 0
    decreases Weight(q)
  {
    if q != [] {
      NoThrows(Calls(q[0]));
      NoThrows(q[1..]);
      var all, below, rest := Nodes(q), Nodes(Calls(q[0])), Nodes(q[1..]);
      assert q[0] in all;
      assert forall t :: t in all <==> t == q[0] || t in below || t in rest;
    }
  }

  /** With no throws, the queue holds exactly one level before each tick. */
  function AfterTicks(q: seq<Task>, k: nat): seq<Task>
    decreases k
  {
    if k == 0 then q else AfterTicks(After(q), k - 1)
  }

  lemma {:induction false} TickRunsLevel(q: seq<Task>, k: nat)
    requires forall t :: t in Nodes(q) && t.throws ==> t.kind.Start? && t.kind.status == 0
    ensures AfterTicks(q, k) == AtDepth(q, k)
  {
    NoThrows(q);
    LevelsTicked(q, k);
  }

  lemma {:induction false} LevelsTicked(q: seq<Task>, k: nat)
    requires FailCount(q) == 0
    ensures AfterTicks(q, k) == AtDepth(q, k) && !AnyFails(AfterTicks(q, k))
    decreases k
  {
    hide AtDepth, After, FailCount;
    NoFails(q);
    AfterWithoutFails(q);
    AfterFails(q);
    if k == 0 {
      DepthOfChildren(q, 0);
    } else {
      LevelsTicked(After(q), k - 1);
      DepthOfChildren(q, k - 1);
    }
  }

  lemma {:induction false} NoFails(q: seq<Task>)
    requires FailCount(q) == 0
    ensures !AnyFails(q)
    decreases |q|
  {
    if q != [] {
      NoFails(q[1..]);
      assert q == [q[0]] + q[1..];
    }
  }
}
