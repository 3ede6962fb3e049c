/**
 The thread-safe queue.  Its threads move in steps, each made under the mutex or at one call of the
 condition variable; the class has one method for each kind of step.
 */
module ThreadSafeQueues {
  import opened Basics

  // ---- Threads ----

  /** Where a thread is with respect to the queue. */
  datatype Thread =
    | Outside
    | Notifying   // has pushed and released the mutex, not yet called notify_one
    | Checking    // inside Pop, awake: it will test the wait predicate
    | Sleeping    // inside Pop, blocked on the condition variable

  /** The queue, the threads that use it, and all items ever pushed and popped. */
  datatype State<T> = State(queue: seq<T>, threads: seq<Thread>, pushed: seq<T>, popped: seq<T>)

  datatype Step<T> =
    | Push(t: nat, item: T)
    | NotifyOne(t: nat, woken: nat)  // wakes `woken`
    | NotifyNobody(t: nat)           // when no thread sleeps
    | EnterPop(t: nat)
    | Test(t: nat)                   // takes the front item, or goes to sleep
    | WakeUp(t: nat)                 // spuriously
    | Clear(t: nat)

  ghost predicate Next<T>(s: State<T>, step: Step<T>, r: State<T>) {
    match step
    case Push(t, item) =>
      && t < |s.threads| && s.threads[t] == Outside
      && r == s.(queue := s.queue + [item], pushed := s.pushed + [item], threads := s.threads[t := Notifying])
    case NotifyOne(t, woken) =>
      && t < |s.threads| && s.threads[t] == Notifying
      && woken < |s.threads| && s.threads[woken] == Sleeping
      && r == s.(threads := s.threads[t := Outside][woken := Checking])
    case NotifyNobody(t) =>
      && t < |s.threads| && s.threads[t] == Notifying && Sleeping !in s.threads
      && r == s.(threads := s.threads[t := Outside])
    case EnterPop(t) =>
      t < |s.threads| && s.threads[t] == Outside && r == s.(threads := s.threads[t := Checking])
    case Test(t) =>
      && t < |s.threads| && s.threads[t] == Checking
      && r == if s.queue == [] then s.(threads := s.threads[t := Sleeping])
              else s.(queue := s.queue[1..], popped := s.popped + [s.queue[0]], threads := s.threads[t := Outside])
    case WakeUp(t) =>
      t < |s.threads| && s.threads[t] == Sleeping && r == s.(threads := s.threads[t := Checking])
    case Clear(t) =>
      t < |s.threads| && s.threads[t] == Outside && r == s.(queue := [])
  }

  /** Some thread that sleeps is woken, or there is none. */
  ghost predicate Notified<T>(s: State<T>, t: nat, r: State<T>) {
    Next(s, NotifyNobody(t), r) || exists woken: nat :: Next(s, NotifyOne(t, woken), r)
  }

  ghost predicate Start<T>(s: State<T>) {
    s.queue == s.pushed == s.popped == [] && forall t :: 0 <= t < |s.threads| ==> s.threads[t] == Outside
  }

  ghost predicate IsRun<T>(run: seq<State<T>>, steps: seq<Step<T>>) {
    && |run| == |steps| + 1
    && Start(run[0])
    && (forall i :: 0 <= i < |steps| ==> Next(run[i], steps[i], run[i + 1]))
  }

  function Count(threads: seq<Thread>, x: Thread): nat {
    if threads == [] then 0
    else Count(threads[..|threads| - 1], x) + if threads[|threads| - 1] == x then 1 else 0
  }

  lemma {:induction false} CountUpdate(threads: seq<Thread>, i: nat, y: Thread, x: Thread)
    requires i < |threads|
    ensures Count(threads[i := y], x) ==
      Count(threads, x) - (if threads[i] == x then 1 else 0) + if y == x then 1 else 0
  {
    var n := |threads| - 1;
    if i < n {
      CountUpdate(threads[..n], i, y, x);
      assert threads[i := y][..n] == threads[..n][i := y];
    } else {
      assert threads[i := y][..n] == threads[..n];
    }
  }

  lemma {:induction false} CountPositive(threads: seq<Thread>, x: Thread)
    ensures Count(threads, x) > 0 <==> x in threads
  {
    if threads != [] {
      var n := |threads| - 1;
      CountPositive(threads[..n], x);
      assert threads == threads[..n] + [threads[n]];
    }
  }

  /** While a thread sleeps, every queued item has a pending notification or an awake consumer. */
  ghost predicate NoLostWakeUp<T>(s: State<T>) {
    Sleeping in s.threads ==> |s.queue| <= Count(s.threads, Notifying) + Count(s.threads, Checking)
  }

  /** What is queued is what was pushed last, in that order, also after a `Clear`. */
  ghost predicate LatestQueued<T>(s: State<T>) {
    |s.queue| <= |s.pushed| && s.pushed[|s.pushed| - |s.queue|..] == s.queue
  }

  ghost predicate StateOk<T>(s: State<T>) {
    NoLostWakeUp(s) && LatestQueued(s)
  }

  /** A thread changing its place changes the counts by that thread alone. */
  lemma PlaceChanged(threads: seq<Thread>, t: nat, y: Thread)
    requires t < |threads|
    ensures var m := threads[t := y];
      && Count(m, Notifying) == Count(threads, Notifying)
           - (if threads[t] == Notifying then 1 else 0) + (if y == Notifying then 1 else 0)
      && Count(m, Checking) == Count(threads, Checking)
           - (if threads[t] == Checking then 1 else 0) + (if y == Checking then 1 else 0)
      && (Sleeping in m && y != Sleeping ==> Sleeping in threads)
  {
    CountUpdate(threads, t, y, Notifying);
    CountUpdate(threads, t, y, Checking);
  }

  lemma NextKeeps<T>(s: State<T>, step: Step<T>, r: State<T>)
    requires StateOk(s) && Next(s, step, r)
    ensures StateOk(r)
  {
    match step
    case Push(t, item) => PlaceChanged(s.threads, t, Notifying);
    case NotifyOne(t, woken) =>
      PlaceChanged(s.threads, t, Outside);
      PlaceChanged(s.threads[t := Outside], woken, Checking);
    case NotifyNobody(t) => PlaceChanged(s.threads, t, Outside);
    case EnterPop(t) => PlaceChanged(s.threads, t, Checking);
    case Test(t) => PlaceChanged(s.threads, t, if s.queue == [] then Sleeping else Outside);
    case WakeUp(t) => PlaceChanged(s.threads, t, Checking);
    case Clear(t) =>
  }

  lemma StartOk<T>(s: State<T>)
    requires Start(s)
    ensures StateOk(s)
  {
  }

  /** No wake-up is lost and no item is out of order in any run, with spurious wake-ups and `Clear`s. */
  lemma {:induction false} RunKeeps<T>(run: seq<State<T>>, steps: seq<Step<T>>, i: nat)
    requires IsRun(run, steps) && i < |run|
    ensures StateOk(run[i])
  {
    if i > 0 {
      RunKeeps(run, steps, i - 1);
      NextKeeps(run[i - 1], steps[i - 1], run[i]);
    }
  }

  /** So a queue with items never has all its threads asleep or gone: somebody can still move. */
  lemma NobodySleepsForever<T>(run: seq<State<T>>, steps: seq<Step<T>>, i: nat)
    requires IsRun(run, steps) && i < |run|
    requires run[i].queue != [] && Sleeping in run[i].threads
    ensures Notifying in run[i].threads || Checking in run[i].threads
  {
    RunKeeps(run, steps, i);
    CountPositive(run[i].threads, Notifying);
    CountPositive(run[i].threads, Checking);
  }

  /** Items leave in the order they came, as long as nobody clears the queue. */
  lemma {:induction false} FirstInFirstOut<T>(run: seq<State<T>>, steps: seq<Step<T>>, i: nat)
    requires IsRun(run, steps) && i < |run|
    requires forall j :: 0 <= j < i ==> !steps[j].Clear?
    ensures run[i].pushed == run[i].popped + run[i].queue
  {
    if i > 0 {
      FirstInFirstOut(run, steps, i - 1);
      var s, r := run[i - 1], run[i];
      assert Next(s, steps[i - 1], r);
      if steps[i - 1].Test? && s.queue != [] {
        assert s.popped + s.queue == (s.popped + [s.queue[0]]) + s.queue[1..];
      }
    }
  }

  /** Only one thread ever calls `Pop`, as the server's and the client's game loops do. */
  ghost predicate SingleConsumer<T>(steps: seq<Step<T>>, consumer: nat) {
    forall k :: 0 <= k < |steps| && steps[k].EnterPop? ==> steps[k].t == consumer
  }

  lemma {:induction false} OthersStayOut<T>(run: seq<State<T>>, steps: seq<Step<T>>, consumer: nat, i: nat, t: nat)
    requires IsRun(run, steps) && SingleConsumer(steps, consumer)
    requires i < |run| && t < |run[i].threads| && t != consumer
    ensures run[i].threads[t] == Outside || run[i].threads[t] == Notifying
  {
    if i > 0 {
      assert Next(run[i - 1], steps[i - 1], run[i]);
      OthersStayOut(run, steps, consumer, i - 1, t);
    }
  }

  lemma {:induction false} StaysNonEmpty<T>(run: seq<State<T>>, steps: seq<Step<T>>, consumer: nat, i: nat, j: nat)
    requires IsRun(run, steps) && SingleConsumer(steps, consumer) && i <= j < |run|
    requires forall k :: i <= k < j ==> !steps[k].Clear? && steps[k] != Test(consumer)
    requires run[i].queue != []
    ensures run[j].queue != []
  {
    if i < j {
      StaysNonEmpty(run, steps, consumer, i, j - 1);
      assert Next(run[j - 1], steps[j - 1], run[j]);
      if steps[j - 1].Test? {
        OthersStayOut(run, steps, consumer, j - 1, steps[j - 1].t);
      }
    }
  }

  /**
   A single consumer that has seen the queue non-empty finds it non-empty when its `Pop` next
   tests it, whatever the producers do meanwhile, and so leaves `Pop` with the front item at once.
   */
  lemma PopAfterNonEmpty<T>(run: seq<State<T>>, steps: seq<Step<T>>, consumer: nat, i: nat, j: nat)
    requires IsRun(run, steps) && SingleConsumer(steps, consumer) && i <= j < |steps|
    requires forall k :: i <= k < j ==> !steps[k].Clear? && steps[k] != Test(consumer)
    requires run[i].queue != [] && steps[j] == Test(consumer)
    ensures run[j].queue != []
    ensures run[j + 1].popped == run[j].popped + [run[j].queue[0]]
    ensures run[j + 1].threads[consumer] == Outside
  {
    StaysNonEmpty(run, steps, consumer, i, j);
    assert Next(run[j], steps[j], run[j + 1]);
  }

  // ---- The object ----

  // The two threads of the program, for its queues of incoming messages.
  const GAME_LOOP: nat := 0
  const ASIO: nat := 1

  class ThreadSafeQueue<T> {
    var queue: seq<T>
    ghost var threads: seq<Thread>
    ghost var pushed: seq<T>
    ghost var popped: seq<T>

    ghost function View(): State<T>
      reads this
    {
      State(queue, threads, pushed, popped)
    }

    ghost predicate Valid()
      reads this
    {
      StateOk(View())
    }

    ghost predicate At(t: nat, place: Thread)
      reads this
    {
      t < |threads| && threads[t] == place
    }

    constructor (ghost n: nat)
      ensures Valid() && Start(View()) && |threads| == n
    {
      queue, pushed, popped := [], [], [];
      threads := seq(n, _ => Outside);
      new;
      StartOk(View());
    }

    /** `Push` up to the end of the locked block. */
    method PushLocked(item: T, ghost t: nat)
      requires Valid() && At(t, Outside)
      modifies this
      ensures Valid() && Next(old(View()), Step.Push(t, item), View())
    {
      queue := queue + [item];
      pushed, threads := pushed + [item], threads[t := Notifying];
      NextKeeps(old(View()), Step.Push(t, item), View());
    }

    /** `notify_one`. */
    method NotifyOne(ghost t: nat)
      requires Valid() && At(t, Notifying)
      modifies this`threads
      ensures Valid() && Notified(old(View()), t, View())
    {
      if Sleeping in threads {
        ghost var woken: nat :| woken < |threads| && threads[woken] == Sleeping;
        threads := threads[t := Outside][woken := Checking];
        NextKeeps(old(View()), Step.NotifyOne(t, woken), View());
      } else {
        threads := threads[t := Outside];
        NextKeeps(old(View()), NotifyNobody(t), View());
      }
    }

    /** `Push` when no other thread moves between its two steps. */
    method Push(item: T, ghost t: nat)
      requires Valid() && At(t, Outside)
      modifies this
      ensures Valid() && queue == old(queue) + [item] && pushed == old(pushed) + [item]
      ensures popped == old(popped) && |threads| == |old(threads)| && At(t, Outside)
      ensures forall u :: 0 <= u < |threads| && old(threads)[u] != Sleeping ==> threads[u] == old(threads)[u]
    {
      PushLocked(item, t);
      NotifyOne(t);
    }

    method EnterPop(ghost t: nat)
      requires Valid() && At(t, Outside)
      modifies this`threads
      ensures Valid() && Next(old(View()), Step.EnterPop(t), View())
    {
      threads := threads[t := Checking];
      NextKeeps(old(View()), Step.EnterPop(t), View());
    }

    /** The wait predicate of `Pop` is tested: an item is taken, or the thread goes to sleep. */
    method Test(ghost t: nat) returns (item: Option<T>)
      requires Valid() && At(t, Checking)
      modifies this
      ensures Valid() && Next(old(View()), Step.Test(t), View())
      ensures item == if old(queue) == [] then None else Some(old(queue)[0])
    {
      if queue == [] {
        item := None;
        threads := threads[t := Sleeping];
      } else {
        item := Some(queue[0]);
        popped, threads := popped + [queue[0]], threads[t := Outside];
        queue := queue[1..];
      }
      NextKeeps(old(View()), Step.Test(t), View());
    }

    /** `Pop` on a queue that holds an item, which is when its wait ends at the first test. */
    method Pop(ghost t: nat) returns (item: T)
      requires Valid() && At(t, Outside) && queue != []
      modifies this
      ensures Valid() && [item] + queue == old(queue) && popped == old(popped) + [item]
      ensures pushed == old(pushed) && threads == old(threads)
    {
      EnterPop(t);
      var taken := Test(t);
      item := taken.value;
    }

    method Empty() returns (empty: bool)
      ensures empty <==> queue == []
    {
      empty := |queue| == 0;
    }

    method Clear(ghost t: nat)
      requires Valid() && At(t, Outside)
      modifies this`queue
      ensures Valid() && Next(old(View()), Step.Clear(t), View())
    {
      queue := [];
      NextKeeps(old(View()), Step.Clear(t), View());
    }
  }
}
