/** `kQueue`: a queue under a mutex with a condition variable that producers
    signal only when they find the queue empty, after they have unlocked it. */
module KQueues {

  /** The queue, the consumers asleep in `wait`, and how many producers have
      unlocked the mutex but not yet called `notify_one`. `pushed` and `popped`
      are the history. */
  datatype Queue<T> = Queue(work: seq<T>, blocked: set<nat>, owed: nat, pushed: seq<T>, popped: seq<T>)

  function NewQueue<T>(): Queue<T> {
    Queue([], {}, 0, [], [])
  }

  /** `Put`: the locked part of `push_work`. `Notify(c)`: `notify_one`, which
      wakes `c` or nobody. `Attempt(c)`: consumer `c` holds the mutex in
      `wait_and_pop`, on entry or after a wake-up. */
  datatype Step<T> = Put(item: T) | Notify(c: nat) | Attempt(c: nat)

  predicate Enabled<T>(s: Queue<T>, n: nat, step: Step<T>) {
    match step
    case Put(_) => true
    case Notify(c) => s.owed > 0 && (c in s.blocked || s.blocked == {})
    case Attempt(c) => c < n && c !in s.blocked
  }

  function Next<T>(s: Queue<T>, step: Step<T>): Queue<T>
    requires step.Notify? ==> s.owed > 0
  {
    match step
    case Put(x) =>
      s.(work := s.work + [x], pushed := s.pushed + [x], owed := s.owed + if s.work == [] then 1 else 0)
    case Notify(c) => s.(owed := s.owed - 1, blocked := s.blocked - {c})
    case Attempt(c) =>
      if s.work == [] then s.(blocked := s.blocked + {c})
      else s.(work := s.work[1..], popped := s.popped + [s.work[0]])
  }

  // ------------------------------------------------------------------ invariant

  /** Some consumer is awake and will look at the queue again. */
  ghost predicate SomeoneAwake<T>(s: Queue<T>, n: nat) {
    exists c: nat :: c < n && c !in s.blocked
  }

  ghost predicate Inv<T>(s: Queue<T>, n: nat) {
    && s.pushed == s.popped + s.work
    && (forall c :: c in s.blocked ==> c < n)
    && (s.work != [] ==> s.owed > 0 || SomeoneAwake(s, n) || n == 0)
  }

  lemma {:induction false} InvStep<T>(s: Queue<T>, n: nat, step: Step<T>)
    requires Inv(s, n) && Enabled(s, n, step)
    ensures Inv(Next(s, step), n)
  {
    var t := Next(s, step);
    match step
    case Put(x) =>
      assert s.popped + (s.work + [x]) == s.popped + s.work + [x];
      if SomeoneAwake(s, n) {
        var c: nat :| c < n && c !in s.blocked;
        assert c !in t.blocked;
      }
    case Notify(c) =>
      if n > 0 {
        if s.blocked == {} {
          assert 0 !in t.blocked;
        } else {
          assert c < n && c !in t.blocked;
        }
      }
    case Attempt(c) =>
      if s.work != [] {
        assert s.work == [s.work[0]] + s.work[1..];
        assert c < n && c !in t.blocked;
      }
  }

  /** Any interleaving of any number of producers and `n` consumers. */
  ghost predicate IsRun<T(!new)>(trace: seq<Queue<T>>, n: nat) {
    && trace != [] && trace[0] == NewQueue<T>()
    && forall i :: 0 <= i < |trace| - 1 ==> StepsTo(trace[i], trace[i + 1], n)
  }

  ghost predicate StepsTo<T(!new)>(s: Queue<T>, t: Queue<T>, n: nat) {
    exists step :: Enabled(s, n, step) && t == Next(s, step)
  }

  ghost predicate Reachable<T(!new)>(s: Queue<T>, n: nat) {
    exists trace :: IsRun(trace, n) && trace[|trace| - 1] == s
  }

  lemma {:induction false} RunInv<T(!new)>(trace: seq<Queue<T>>, n: nat)
    requires IsRun(trace, n)
    ensures Inv(trace[|trace| - 1], n)
  {
    if |trace| > 1 {
      var k := |trace| - 2;
      var init := trace[..k + 1];
      forall i | 0 <= i < |init| - 1 ensures StepsTo(init[i], init[i + 1], n) {
        assert StepsTo(trace[i], trace[i + 1], n);
      }
      RunInv(init, n);
      assert StepsTo(trace[k], trace[k + 1], n);
      var step :| Enabled(trace[k], n, step) && trace[k + 1] == Next(trace[k], step);
      InvStep(trace[k], n, step);
    }
  }

  /** Items leave in push order, each exactly once: what has been popped and
      what is still queued is what was pushed. */
  lemma {:induction false} FirstInFirstOut<T(!new)>(s: Queue<T>, n: nat)
    requires Reachable(s, n)
    ensures s.pushed == s.popped + s.work
  {
    var trace :| IsRun(trace, n) && trace[|trace| - 1] == s;
    RunInv(trace, n);
  }

  /** The consumers never all sleep on a non-empty queue without a notify on
      its way, however many they are. */
  lemma {:induction false} NeverAllAsleep<T(!new)>(s: Queue<T>, n: nat)
    requires Reachable(s, n) && n > 0 && s.work != []
    requires forall c: nat :: c < n ==> c in s.blocked
    ensures s.owed > 0
  {
    var trace :| IsRun(trace, n) && trace[|trace| - 1] == s;
    RunInv(trace, n);
  }

  // ------------------------------------------------------------ lost wake-ups

  /** A consumer that sleeps on a non-empty queue is going to be notified. */
  ghost predicate NoLostWakeUp<T(!new)>(n: nat) {
    forall s: Queue<T> :: Reachable(s, n) && s.blocked != {} && s.work != [] ==> s.owed > 0
  }

  lemma {:induction false} Extend<T(!new)>(trace: seq<Queue<T>>, n: nat, step: Step<T>)
    requires IsRun(trace, n) && Enabled(trace[|trace| - 1], n, step)
    ensures IsRun(trace + [Next(trace[|trace| - 1], step)], n)
  {
    var k := |trace| - 1;
    var more := trace + [Next(trace[k], step)];
    forall i | 0 <= i < |more| - 1 ensures StepsTo(more[i], more[i + 1], n) {
      if i < k {
        assert StepsTo(trace[i], trace[i + 1], n);
      } else {
        assert more[i] == trace[k];
      }
    }
  }

  lemma {:induction false} ReachStep<T(!new)>(s: Queue<T>, n: nat, step: Step<T>) returns (t: Queue<T>)
    requires Reachable(s, n) && Enabled(s, n, step)
    ensures t == Next(s, step) && Reachable(t, n)
  {
    var trace :| IsRun(trace, n) && trace[|trace| - 1] == s;
    Extend(trace, n, step);
    t := Next(s, step);
    var more := trace + [t];
    assert IsRun(more, n) && more[|more| - 1] == t;
  }

  lemma {:induction false} TwoAsleep<T(!new)>(n: nat) returns (s: Queue<T>)
    requires n >= 2
    ensures Reachable(s, n) && s == Queue([], {0, 1}, 0, [], [])
  {
    s := NewQueue<T>();
    assert IsRun([s], n) && [s][|[s]| - 1] == s;
    s := ReachStep(s, n, Attempt(0));
    s := ReachStep(s, n, Attempt(1));
    assert s.blocked == {0, 1};
  }

  lemma {:induction false} TwoItemsOneNotify<T(!new)>(n: nat, x: T) returns (s: Queue<T>)
    requires n >= 2
    ensures Reachable(s, n) && s == Queue([x, x], {0, 1}, 1, [x, x], [])
  {
    s := TwoAsleep(n);
    s := ReachStep(s, n, Put(x));
    s := ReachStep(s, n, Put(x));
    assert s.work == [x, x];
  }

  /** Two consumers asleep, two items put before the one notify: the first
      consumer takes its item, the second sleeps on. */
  lemma {:induction false} SecondSleeperForgotten<T(!new)>(n: nat, x: T) returns (s: Queue<T>)
    requires n >= 2
    ensures Reachable(s, n) && 1 in s.blocked && s.work == [x] && s.owed == 0
  {
    s := TwoItemsOneNotify(n, x);
    s := ReachStep(s, n, Notify(0));
    s := ReachStep(s, n, Attempt(0));
  }

  /** Signalling only on the change from empty to non-empty loses no wake-up
      exactly when there is at most one consumer. */
  lemma {:induction false} NoLostWakeUpIff<T(!new)>(n: nat, x: T)
    ensures NoLostWakeUp<T>(n) <==> n <= 1
  {
    if n <= 1 {
      forall s: Queue<T> | Reachable(s, n) && s.blocked != {} && s.work != [] ensures s.owed > 0 {
        var trace :| IsRun(trace, n) && trace[|trace| - 1] == s;
        RunInv(trace, n);
        var c :| c in s.blocked;
        assert c == 0;
      }
    } else {
      var s := SecondSleeperForgotten(n, x);
    }
  }

  // ------------------------------------------------------------------ the object

  /** The queue object; each method is one stretch of code under the mutex. */
  class KQueue<T> {
    var work: seq<T>
    ghost var blocked: set<nat>
    ghost var owed: nat
    ghost var pushed: seq<T>
    ghost var popped: seq<T>

    ghost function State(): Queue<T>
      reads this
    {
      Queue(work, blocked, owed, pushed, popped)
    }

    constructor ()
      ensures State() == NewQueue<T>()
    {
      work, blocked, owed, pushed, popped := [], {}, 0, [], [];
    }

    /** `push_work` up to the unlock; the caller notifies if the queue was empty. */
    method Push(item: T) returns (wasEmpty: bool)
      modifies this
      ensures State() == Next(old(State()), Put(item))
      ensures wasEmpty <==> owed == old(owed) + 1
      ensures !wasEmpty ==> owed == old(owed)
    {
      wasEmpty := |work| == 0;
      if wasEmpty {
        owed := owed + 1;
      }
      work := work + [item];
      pushed := pushed + [item];
    }

    /** One turn of `wait_and_pop`: wait if the queue is empty, else pop. */
    method TryPop(ghost c: nat, ghost n: nat) returns (item: seq<T>)
      requires Enabled(State(), n, Attempt(c))
      modifies this
      ensures State() == Next(old(State()), Attempt(c))
      ensures popped == old(popped) + item
      ensures item == [] <==> c in blocked
    {
      if |work| == 0 {
        item := [];
        blocked := blocked + {c};
      } else {
        item := [work[0]];
        work := work[1..];
        popped := popped + item;
      }
    }
  }
}
