/** Threads, the ready list and semaphores as a state machine: threads/thread.cc,
    threads/scheduler.cc and threads/synch.cc.  Every action here runs with interrupts off in the
    source, so it is one step. */
module Kernels {

  /** Finished stands for a thread that sleeps for ever in Finish and is about to be deleted. */
  datatype Status = Running | Ready | Blocked | Finished

  /** inP is the semaphore whose P the thread is inside, or -1. */
  datatype Thread = Thread(status: Status, inP: int)

  /** ps and vs count the Ps and Vs that have completed; woken lists the threads that were taken off the
      queue, in order. */
  datatype Semaphore = Semaphore(value: int, queue: seq<nat>, ps: nat, vs: nat, woken: seq<nat>)

  /** running is -1 while Sleep waits in Idle for some thread to become ready.  dispatched lists the
      threads given the processor, in order. */
  datatype Kernel = Kernel(threads: seq<Thread>, sems: seq<Semaphore>, ready: seq<nat>, running: int, dispatched: seq<nat>)

  /** What the running thread does next, a V by an interrupt handler, or the return from Idle.
      Recheck is the loop test in P after being woken. */
  datatype Action = P(k: nat) | Recheck | V(k: nat) | InterruptV(k: nat) | Yield | Fork | Finish | Wake

  // ---- Steps ----

  /** The running thread is inside P, with interrupts off. */
  predicate InsideP(s: Kernel) { 0 <= s.running < |s.threads| && s.threads[s.running].inP != -1 }

  predicate Enabled(s: Kernel, a: Action) {
    match a
    case P(k) => 0 <= s.running < |s.threads| && !InsideP(s) && k < |s.sems|
    case Recheck => InsideP(s) && 0 <= s.threads[s.running].inP < |s.sems|
    case V(k) => 0 <= s.running < |s.threads| && !InsideP(s) && k < |s.sems|
    case InterruptV(k) => !InsideP(s) && k < |s.sems|
    case Yield => 0 <= s.running < |s.threads| && !InsideP(s)
    case Fork => 0 <= s.running < |s.threads| && !InsideP(s)
    case Finish => 0 <= s.running < |s.threads| && !InsideP(s)
    case Wake => s.running == -1 && s.ready != []
  }

  predicate KnownThreads(s: Kernel) {
    && (forall i :: 0 <= i < |s.ready| ==> s.ready[i] < |s.threads|)
    && (forall k, i :: 0 <= k < |s.sems| && 0 <= i < |s.sems[k].queue| ==> s.sems[k].queue[i] < |s.threads|)
    && -1 <= s.running < |s.threads|
  }

  function SetStatus(s: Kernel, t: nat, status: Status): Kernel
    requires t < |s.threads|
  {
    s.(threads := s.threads[t := s.threads[t].(status := status)])
  }

  /** FindNextToRun and Run: the head of the ready list gets the processor, or nobody does. */
  function Dispatch(s: Kernel): Kernel
    requires KnownThreads(s)
  {
    if s.ready == [] then s.(running := -1)
    else SetStatus(s, s.ready[0], Running).(running := s.ready[0], ready := s.ready[1..], dispatched := s.dispatched + [s.ready[0]])
  }

  function ReadyToRun(s: Kernel, t: nat): Kernel
    requires t < |s.threads|
  {
    SetStatus(s, t, Ready).(ready := s.ready + [t])
  }

  /** The body of the loop in P: join the queue and sleep. */
  function Join(s: Kernel, k: nat): Kernel
    requires 0 <= s.running < |s.threads| && k < |s.sems|
  {
    s.(threads := s.threads[s.running := Thread(Blocked, k)],
       sems := s.sems[k := s.sems[k].(queue := s.sems[k].queue + [s.running])])
  }

  /** The end of P. */
  function Take(s: Kernel, k: nat): Kernel
    requires 0 <= s.running < |s.threads| && k < |s.sems|
  {
    s.(threads := s.threads[s.running := s.threads[s.running].(inP := -1)],
       sems := s.sems[k := s.sems[k].(value := s.sems[k].value - 1, ps := s.sems[k].ps + 1)])
  }

  function TryP(s: Kernel, k: nat): Kernel
    requires KnownThreads(s) && 0 <= s.running < |s.threads| && k < |s.sems|
  {
    if s.sems[k].value == 0 then Dispatch(Join(s, k).(running := -1)) else Take(s, k)
  }

  /** V: the first waiter, if any, becomes ready, and the value goes up. */
  function DoV(s: Kernel, k: nat): Kernel
    requires KnownThreads(s) && k < |s.sems|
  {
    var sem := s.sems[k];
    var up := sem.(value := sem.value + 1, vs := sem.vs + 1);
    if sem.queue == [] then s.(sems := s.sems[k := up])
    else ReadyToRun(s, sem.queue[0]).(sems := s.sems[k := up.(queue := sem.queue[1..], woken := sem.woken + [sem.queue[0]])])
  }

  function Next(s: Kernel, a: Action): Kernel
    requires KnownThreads(s) && Enabled(s, a)
  {
    match a
    case P(k) => TryP(s, k)
    case Recheck => TryP(s, s.threads[s.running].inP)
    case V(k) => DoV(s, k)
    case InterruptV(k) => DoV(s, k)
    case Yield => if s.ready == [] then s else YieldTo(s)
    case Fork => s.(threads := s.threads + [Thread(Ready, -1)], ready := s.ready + [|s.threads|])
    case Finish => Dispatch(SetStatus(s, s.running, Finished).(running := -1))
    case Wake => Dispatch(s)
  }

  /** Yield takes the head of the ready list before it puts the running thread at the tail. */
  function YieldTo(s: Kernel): Kernel
    requires KnownThreads(s) && 0 <= s.running < |s.threads| && s.ready != []
  {
    var next := s.ready[0];
    SetStatus(SetStatus(s, s.running, Ready), next, Running)
      .(running := next, ready := s.ready[1..] + [s.running], dispatched := s.dispatched + [next])
  }

  // ---- Where threads are ----

  function CountIn(q: seq<nat>, t: nat): nat {
    if q == [] then 0 else (if q[0] == t then 1 else 0) + CountIn(q[1..], t)
  }

  function CountQueued(sems: seq<Semaphore>, t: nat): nat {
    if sems == [] then 0 else CountQueued(sems[..|sems| - 1], t) + CountIn(sems[|sems| - 1].queue, t)
  }

  /** In how many places thread t is. */
  function Places(s: Kernel, t: nat): nat {
    CountIn(s.ready, t) + CountQueued(s.sems, t) + if s.running == t then 1 else 0
  }

  predicate Live(s: Kernel, t: nat) { t < |s.threads| && s.threads[t].status != Finished }

  lemma {:induction false} CountAppend(q: seq<nat>, x: nat, t: nat)
    ensures CountIn(q + [x], t) == CountIn(q, t) + if x == t then 1 else 0
  {
    if q != [] {
      CountAppend(q[1..], x, t);
      assert (q + [x])[1..] == q[1..] + [x];
    }
  }

  lemma {:induction false} CountMember(q: seq<nat>, t: nat)
    ensures CountIn(q, t) > 0 <==> t in q
  {
    if q != [] {
      CountMember(q[1..], t);
      assert q == [q[0]] + q[1..];
    }
  }

  lemma {:induction false} CountUpdate(sems: seq<Semaphore>, k: nat, sem: Semaphore, t: nat)
    requires k < |sems|
    ensures CountQueued(sems[k := sem], t) == CountQueued(sems, t) - CountIn(sems[k].queue, t) + CountIn(sem.queue, t)
  {
    var n := |sems| - 1;
    if k < n {
      CountUpdate(sems[..n], k, sem, t);
      assert sems[k := sem][..n] == sems[..n][k := sem];
    } else {
      assert sems[k := sem][..n] == sems[..n];
    }
  }

  lemma {:induction false} CountQueuedMember(sems: seq<Semaphore>, t: nat)
    ensures CountQueued(sems, t) > 0 <==> exists k :: 0 <= k < |sems| && t in sems[k].queue
  {
    if sems != [] {
      var n := |sems| - 1;
      CountQueuedMember(sems[..n], t);
      CountMember(sems[n].queue, t);
      if k :| 0 <= k < |sems| && t in sems[k].queue {
        assert k < n ==> t in sems[..n][k].queue;
      }
    }
  }

  // ---- The invariant ----

  /** Statuses match places. */
  ghost predicate StatusOk(s: Kernel)
    requires KnownThreads(s)
  {
    && (forall i :: 0 <= i < |s.ready| ==> s.threads[s.ready[i]].status == Ready)
    && (forall k, i :: 0 <= k < |s.sems| && 0 <= i < |s.sems[k].queue| ==> s.threads[s.sems[k].queue[i]] == Thread(Blocked, k))
    && (s.running >= 0 ==> s.threads[s.running].status == Running)
    && (forall t :: 0 <= t < |s.threads| ==> -1 <= s.threads[t].inP < |s.sems|)
  }

  /** Every live thread is in exactly one place, and no other thread is anywhere. */
  ghost predicate PlacesOk(s: Kernel) {
    forall t: nat :: Places(s, t) == if Live(s, t) then 1 else 0
  }

  // ---- Places are kept ----

  lemma {:induction false} DispatchPlaces(s: Kernel, t: nat)
    requires KnownThreads(s) && s.running == -1
    ensures Places(Dispatch(s), t) == Places(s, t)
  {
  }

  lemma {:induction false} TryPPlaces(s: Kernel, k: nat, t: nat)
    requires KnownThreads(s) && 0 <= s.running && k < |s.sems|
    ensures KnownThreads(TryP(s, k)) && Places(TryP(s, k), t) == Places(s, t)
  {
    if s.sems[k].value == 0 {
      CountAppend(s.sems[k].queue, s.running, t);
      CountUpdate(s.sems, k, s.sems[k].(queue := s.sems[k].queue + [s.running]), t);
      DispatchPlaces(Join(s, k).(running := -1), t);
    } else {
      CountUpdate(s.sems, k, Take(s, k).sems[k], t);
    }
  }

  lemma {:induction false} VPlaces(s: Kernel, k: nat, t: nat)
    requires KnownThreads(s) && k < |s.sems|
    ensures KnownThreads(DoV(s, k)) && Places(DoV(s, k), t) == Places(s, t)
  {
    CountUpdate(s.sems, k, DoV(s, k).sems[k], t);
    if s.sems[k].queue != [] {
      CountAppend(s.ready, s.sems[k].queue[0], t);
    }
  }

  lemma {:induction false} YieldPlaces(s: Kernel, t: nat)
    requires KnownThreads(s) && 0 <= s.running && s.ready != []
    ensures KnownThreads(YieldTo(s)) && Places(YieldTo(s), t) == Places(s, t)
  {
    CountAppend(s.ready[1..], s.running, t);
  }

  lemma {:induction false} FinishPlaces(s: Kernel, t: nat)
    requires KnownThreads(s) && 0 <= s.running
    ensures var f := SetStatus(s, s.running, Finished).(running := -1);
            KnownThreads(f) && KnownThreads(Dispatch(f))
            && Places(Dispatch(f), t) == Places(s, t) - if t == s.running then 1 else 0
  {
    DispatchPlaces(SetStatus(s, s.running, Finished).(running := -1), t);
  }

  /** A step adds the thread it forks, drops the thread it finishes, and only moves the others. */
  lemma {:induction false} NextPlaces(s: Kernel, a: Action, t: nat)
    requires KnownThreads(s) && StatusOk(s) && Enabled(s, a)
    ensures KnownThreads(Next(s, a))
    ensures Places(Next(s, a), t) == Places(s, t) + (if a == Fork && t == |s.threads| then 1 else 0)
                                     - (if a == Finish && t == s.running then 1 else 0)
  {
    match a
    case P(k) => TryPPlaces(s, k, t);
    case Recheck => TryPPlaces(s, s.threads[s.running].inP, t);
    case V(k) => VPlaces(s, k, t);
    case InterruptV(k) => VPlaces(s, k, t);
    case Yield =>
      if s.ready != [] {
        YieldPlaces(s, t);
      }
    case Fork => CountAppend(s.ready, |s.threads|, t);
    case Finish => FinishPlaces(s, t);
    case Wake => DispatchPlaces(s, t);
  }

  lemma {:induction false} NextLive(s: Kernel, a: Action, t: nat)
    requires KnownThreads(s) && StatusOk(s) && Enabled(s, a)
    ensures Live(Next(s, a), t) <==> (Live(s, t) || (a == Fork && t == |s.threads|)) && !(a == Finish && t == s.running)
  {
  }

  lemma {:induction false} KeepPlaces(s: Kernel, a: Action)
    requires KnownThreads(s) && StatusOk(s) && PlacesOk(s) && Enabled(s, a)
    ensures KnownThreads(Next(s, a)) && PlacesOk(Next(s, a))
  {
    forall t: nat
      ensures Places(Next(s, a), t) == if Live(Next(s, a), t) then 1 else 0
    {
      NextPlaces(s, a, t);
      NextLive(s, a, t);
    }
    NextPlaces(s, a, 0);
  }

  // ---- Statuses are kept ----

  predicate NoRepeats(q: seq<nat>) { forall i, j :: 0 <= i < j < |q| ==> q[i] != q[j] }

  lemma {:induction false} CountTwice(q: seq<nat>, i: nat, j: nat)
    requires i < j < |q| && q[i] == q[j]
    ensures CountIn(q, q[i]) >= 2
  {
    if i == 0 {
      CountMember(q[1..], q[0]);
      assert q[1..][j - 1] == q[0];
    } else {
      CountTwice(q[1..], i - 1, j - 1);
    }
  }

  lemma {:induction false} CountAtMost(sems: seq<Semaphore>, k: nat, t: nat)
    requires k < |sems|
    ensures CountIn(sems[k].queue, t) <= CountQueued(sems, t)
  {
    var n := |sems| - 1;
    if k < n {
      CountAtMost(sems[..n], k, t);
    }
  }

  lemma {:induction false} ListsDistinct(s: Kernel, k: nat)
    requires PlacesOk(s)
    ensures NoRepeats(s.ready) && (k < |s.sems| ==> NoRepeats(s.sems[k].queue))
  {
    forall i, j | 0 <= i < j < |s.ready|
      ensures s.ready[i] != s.ready[j]
    {
      assert Places(s, s.ready[i]) <= 1;
      if s.ready[i] == s.ready[j] {
        CountTwice(s.ready, i, j);
      }
    }
    if k < |s.sems| {
      var q := s.sems[k].queue;
      forall i, j | 0 <= i < j < |q|
        ensures q[i] != q[j]
      {
        assert Places(s, q[i]) <= 1;
        if q[i] == q[j] {
          CountTwice(q, i, j);
          CountAtMost(s.sems, k, q[i]);
        }
      }
    }
  }

  lemma {:induction false} DispatchStatus(s: Kernel)
    requires KnownThreads(s) && StatusOk(s) && s.running == -1 && NoRepeats(s.ready)
    ensures KnownThreads(Dispatch(s)) && StatusOk(Dispatch(s))
  {
  }

  lemma {:induction false} TryPStatus(s: Kernel, k: nat)
    requires KnownThreads(s) && StatusOk(s) && 0 <= s.running && k < |s.sems| && NoRepeats(s.ready)
    ensures KnownThreads(TryP(s, k)) && StatusOk(TryP(s, k))
  {
    if s.sems[k].value == 0 {
      var j := Join(s, k).(running := -1);
      assert StatusOk(j);
      DispatchStatus(j);
    }
  }

  lemma {:induction false} VStatus(s: Kernel, k: nat)
    requires KnownThreads(s) && StatusOk(s) && k < |s.sems| && NoRepeats(s.sems[k].queue)
    ensures KnownThreads(DoV(s, k)) && StatusOk(DoV(s, k))
  {
  }

  lemma {:induction false} FinishStatus(s: Kernel)
    requires KnownThreads(s) && StatusOk(s) && 0 <= s.running && NoRepeats(s.ready)
    ensures var f := SetStatus(s, s.running, Finished).(running := -1);
            KnownThreads(f) && KnownThreads(Dispatch(f)) && StatusOk(Dispatch(f))
  {
    var f := SetStatus(s, s.running, Finished).(running := -1);
    assert StatusOk(f);
    DispatchStatus(f);
  }

  lemma {:induction false} YieldStatus(s: Kernel)
    requires KnownThreads(s) && StatusOk(s) && 0 <= s.running && s.ready != [] && NoRepeats(s.ready)
    ensures KnownThreads(YieldTo(s)) && StatusOk(YieldTo(s))
  {
  }

  lemma {:induction false} KeepStatus(s: Kernel, a: Action)
    requires KnownThreads(s) && StatusOk(s) && PlacesOk(s) && Enabled(s, a) && KnownThreads(Next(s, a))
    ensures StatusOk(Next(s, a))
  {
    ListsDistinct(s, 0);
    match a
    case P(k) => TryPStatus(s, k);
    case Recheck => TryPStatus(s, s.threads[s.running].inP);
    case V(k) =>
      ListsDistinct(s, k);
      VStatus(s, k);
    case InterruptV(k) =>
      ListsDistinct(s, k);
      VStatus(s, k);
    case Yield =>
      if s.ready != [] {
        YieldStatus(s);
      }
    case Fork =>
    case Finish => FinishStatus(s);
    case Wake => DispatchStatus(s);
  }

  // ---- Semaphores ----

  /** Threads that are inside P of semaphore k and have been woken but have not yet looked again. */
  ghost function Woken(s: Kernel, k: nat): set<nat> {
    set t: nat | 0 <= t < |s.threads| && s.threads[t].inP == k && s.threads[t].status in {Ready, Running}
  }

  /** The value counts Vs against Ps, and no wakeup is lost: while somebody waits, the value does not
      exceed the number of woken threads still to claim it. */
  ghost predicate SemOk(s: Kernel, init: seq<nat>, k: nat)
    requires k < |s.sems| == |init|
  {
    var sem := s.sems[k];
    && sem.value == init[k] + sem.vs - sem.ps && sem.value >= 0
    && (sem.queue != [] ==> sem.value <= |Woken(s, k)|)
  }

  lemma {:induction false} JoinWoken(s: Kernel, k: nat, j: nat)
    requires KnownThreads(s) && 0 <= s.running && k < |s.sems| && s.threads[s.running].status == Running
    requires s.threads[s.running].inP == -1 || s.threads[s.running].inP == k
    ensures Woken(Join(s, k), j) == if j == k then Woken(s, j) - {s.running as nat} else Woken(s, j)
  {
  }

  lemma {:induction false} TakeWoken(s: Kernel, k: nat, j: nat)
    requires KnownThreads(s) && 0 <= s.running && k < |s.sems| && s.threads[s.running].status == Running
    requires s.threads[s.running].inP == -1 || s.threads[s.running].inP == k
    ensures Woken(Take(s, k), j) == if j == k then Woken(s, j) - {s.running as nat} else Woken(s, j)
  {
  }

  lemma {:induction false} TryPSem(s: Kernel, k: nat, init: seq<nat>, j: nat)
    requires KnownThreads(s) && StatusOk(s) && 0 <= s.running && k < |s.sems| == |init| && j < |init|
    requires SemOk(s, init, j)
    requires s.threads[s.running].inP == -1 || s.threads[s.running].inP == k
    ensures |TryP(s, k).sems| == |init| && SemOk(TryP(s, k), init, j)
  {
    if s.sems[k].value == 0 {
      var joined := Join(s, k).(running := -1);
      JoinWoken(s, k, j);
      assert Woken(joined, j) == Woken(Join(s, k), j);
      DispatchSem(joined, init, j);
    } else {
      TakeWoken(s, k, j);
    }
  }

  lemma {:induction false} DispatchSem(s: Kernel, init: seq<nat>, j: nat)
    requires KnownThreads(s) && s.running == -1 && (s.ready != [] ==> s.threads[s.ready[0]].status == Ready)
    requires j < |init| == |s.sems| && SemOk(s, init, j)
    ensures SemOk(Dispatch(s), init, j)
  {
    assert Woken(Dispatch(s), j) == Woken(s, j);
  }

  lemma {:induction false} VSem(s: Kernel, k: nat, init: seq<nat>, j: nat)
    requires KnownThreads(s) && StatusOk(s) && k < |s.sems| == |init| && j < |init|
    requires SemOk(s, init, j)
    ensures |DoV(s, k).sems| == |init| && SemOk(DoV(s, k), init, j)
  {
    VWoken(s, k, j);
  }

  /** A V wakes the first of its queue and no one else. */
  lemma {:induction false} VWoken(s: Kernel, k: nat, j: nat)
    requires KnownThreads(s) && StatusOk(s) && k < |s.sems| && j < |s.sems|
    ensures |Woken(DoV(s, k), j)| == |Woken(s, j)| + if j == k && s.sems[k].queue != [] then 1 else 0
  {
    var s' := DoV(s, k);
    if s.sems[k].queue != [] {
      var h := s.sems[k].queue[0];
      assert h !in Woken(s, k);
      assert Woken(s', j) == Woken(s, j) + (if j == k then {h} else {});
    } else {
      assert Woken(s', j) == Woken(s, j);
    }
  }

  lemma {:induction false} KeepSem(s: Kernel, a: Action, init: seq<nat>, j: nat)
    requires KnownThreads(s) && StatusOk(s) && PlacesOk(s) && Enabled(s, a) && |s.sems| == |init|
    requires j < |init| && SemOk(s, init, j)
    ensures |Next(s, a).sems| == |init| && SemOk(Next(s, a), init, j)
  {
    var s' := Next(s, a);
    match a
    case P(k) => TryPSem(s, k, init, j);
    case Recheck => TryPSem(s, s.threads[s.running].inP, init, j);
    case V(k) => VSem(s, k, init, j);
    case InterruptV(k) => VSem(s, k, init, j);
    case Yield => assert Woken(s', j) == Woken(s, j);
    case Fork => assert Woken(s', j) == Woken(s, j);
    case Finish =>
      var f := SetStatus(s, s.running, Finished).(running := -1);
      assert Woken(f, j) == Woken(s, j);
      DispatchSem(f, init, j);
    case Wake => DispatchSem(s, init, j);
  }

  // ---- Whole runs ----

  ghost predicate Inv(s: Kernel, init: seq<nat>) {
    && KnownThreads(s) && StatusOk(s) && PlacesOk(s) && |s.sems| == |init|
    && forall k :: 0 <= k < |s.sems| ==> SemOk(s, init, k)
  }

  /** One running thread, nobody waiting. */
  predicate Start(s: Kernel, init: seq<nat>) {
    && s.threads == [Thread(Running, -1)] && s.running == 0 && s.ready == [] && s.dispatched == []
    && |s.sems| == |init| && forall k :: 0 <= k < |init| ==> s.sems[k] == Semaphore(init[k], [], 0, 0, [])
  }

  ghost predicate Runs(s: Kernel, actions: seq<Action>, e: Kernel)
    decreases |actions|
  {
    if actions == [] then e == s
    else KnownThreads(s) && Enabled(s, actions[0]) && Runs(Next(s, actions[0]), actions[1..], e)
  }

  lemma {:induction false} NobodyQueued(sems: seq<Semaphore>, t: nat)
    requires forall k :: 0 <= k < |sems| ==> sems[k].queue == []
    ensures CountQueued(sems, t) == 0
  {
    CountQueuedMember(sems, t);
  }

  lemma {:induction false} StartInv(s: Kernel, init: seq<nat>)
    requires Start(s, init)
    ensures Inv(s, init)
  {
    forall t: nat
      ensures Places(s, t) == if Live(s, t) then 1 else 0
    {
      NobodyQueued(s.sems, t);
    }
  }

  lemma {:induction false} NextInv(s: Kernel, a: Action, init: seq<nat>)
    requires Inv(s, init) && Enabled(s, a)
    ensures Inv(Next(s, a), init)
  {
    KeepPlaces(s, a);
    KeepStatus(s, a);
    KeepSemCount(s, a, init);
    forall k | 0 <= k < |init|
      ensures SemOk(Next(s, a), init, k)
    {
      KeepSem(s, a, init, k);
    }
  }

  lemma {:induction false} KeepSemCount(s: Kernel, a: Action, init: seq<nat>)
    requires KnownThreads(s) && Enabled(s, a) && |s.sems| == |init|
    ensures |Next(s, a).sems| == |init|
  {
  }

  /** In every state of every run, every live thread is in exactly one place with matching status,
      every semaphore counts its Vs against its Ps, and no wakeup is lost. */
  lemma {:induction false} RunInv(s: Kernel, actions: seq<Action>, e: Kernel, init: seq<nat>)
    requires Inv(s, init) && Runs(s, actions, e)
    ensures Inv(e, init)
    decreases |actions|
  {
    if actions != [] {
      NextInv(s, actions[0], init);
      RunInv(Next(s, actions[0]), actions[1..], e, init);
    }
  }

  /** What Inv says about one thread: its status tells the one place where it is. */
  lemma {:induction false} OnePlace(s: Kernel, init: seq<nat>, t: nat)
    requires Inv(s, init) && t < |s.threads|
    ensures s.threads[t].status == Running <==> s.running == t
    ensures s.threads[t].status == Ready <==> t in s.ready
    ensures s.threads[t].status == Blocked <==> exists k :: 0 <= k < |s.sems| && t in s.sems[k].queue
    ensures Live(s, t) ==> CountIn(s.ready, t) + CountQueued(s.sems, t) + (if s.running == t then 1 else 0) == 1
  {
    assert Places(s, t) == if Live(s, t) then 1 else 0;
    CountMember(s.ready, t);
    CountQueuedMember(s.sems, t);
    if k :| 0 <= k < |s.sems| && t in s.sems[k].queue {
      var i :| 0 <= i < |s.sems[k].queue| && s.sems[k].queue[i] == t;
      assert s.threads[s.sems[k].queue[i]] == Thread(Blocked, k);
    }
  }

  /** A semaphore somebody sleeps on has value zero unless woken threads are on their way to it. */
  lemma {:induction false} WakeupsNotLost(s: Kernel, actions: seq<Action>, e: Kernel, init: seq<nat>, k: nat)
    requires Start(s, init) && Runs(s, actions, e) && k < |init|
    ensures |e.sems| == |init| && e.sems[k].value == init[k] + e.sems[k].vs - e.sems[k].ps >= 0
    ensures e.sems[k].queue != [] ==> e.sems[k].value <= |Woken(e, k)|
  {
    StartInv(s, init);
    RunInv(s, actions, e, init);
    assert SemOk(e, init, k);
  }

  // ---- First come, first served ----

  /** The threads dispatched so far followed by those waiting for the processor: a step only adds at
      the end. */
  function Line(s: Kernel): seq<nat> { s.dispatched + s.ready }

  lemma {:induction false} NextLine(s: Kernel, a: Action)
    requires KnownThreads(s) && Enabled(s, a)
    ensures Line(s) <= Line(Next(s, a)) && s.dispatched <= Next(s, a).dispatched
  {
    match a
    case P(k) => TryPLine(s, k);
    case Recheck => TryPLine(s, s.threads[s.running].inP);
    case V(_) =>
    case InterruptV(_) =>
    case Yield =>
      if s.ready != [] {
        Rejoined(s.dispatched, s.ready, [s.running]);
      }
    case Fork =>
    case Finish => DispatchLine(SetStatus(s, s.running, Finished).(running := -1));
    case Wake => DispatchLine(s);
  }

  lemma {:induction false} DispatchLine(s: Kernel)
    requires KnownThreads(s)
    ensures Line(s) <= Line(Dispatch(s)) && s.dispatched <= Dispatch(s).dispatched
  {
    if s.ready != [] {
      Rejoined(s.dispatched, s.ready, []);
    }
  }

  lemma {:induction false} TryPLine(s: Kernel, k: nat)
    requires KnownThreads(s) && 0 <= s.running < |s.threads| && k < |s.sems|
    ensures Line(s) <= Line(TryP(s, k)) && s.dispatched <= TryP(s, k).dispatched
  {
    if s.sems[k].value == 0 {
      DispatchLine(Join(s, k).(running := -1));
    }
  }

  lemma {:induction false} Rejoined(a: seq<nat>, b: seq<nat>, c: seq<nat>)
    requires b != []
    ensures a + [b[0]] + (b[1..] + c) == a + b + c && a + [b[0]] + b[1..] == a + b
  {
  }

  lemma {:induction false} RunLine(s: Kernel, actions: seq<Action>, e: Kernel)
    requires Runs(s, actions, e)
    ensures Line(s) <= Line(e)
    decreases |actions|
  {
    if actions != [] {
      NextLine(s, actions[0]);
      RunLine(Next(s, actions[0]), actions[1..], e);
    }
  }

  /** The thread at position k of the ready list is the one that gets the processor at the (k+1)-th
      dispatch from now, whatever happens in between. */
  lemma {:induction false} FirstComeFirstServed(s: Kernel, actions: seq<Action>, e: Kernel, k: nat)
    requires Runs(s, actions, e) && k < |s.ready|
    ensures |e.dispatched| > |s.dispatched| + k ==> e.dispatched[|s.dispatched| + k] == s.ready[k]
    ensures |e.dispatched| <= |s.dispatched| + k ==> s.ready[k] in e.ready
  {
    RunLine(s, actions, e);
    var at := |s.dispatched| + k;
    assert Line(s)[at] == s.ready[k] == Line(e)[at];
  }

  // ---- First to wait, first to wake ----

  /** The threads that a semaphore has woken followed by those that wait for it. */
  function WaitLine(s: Kernel, k: nat): seq<nat>
    requires k < |s.sems|
  {
    s.sems[k].woken + s.sems[k].queue
  }

  lemma {:induction false} DispatchSems(s: Kernel)
    requires KnownThreads(s)
    ensures Dispatch(s).sems == s.sems
  {
  }

  lemma {:induction false} NextWaitLine(s: Kernel, a: Action, k: nat)
    requires KnownThreads(s) && Enabled(s, a) && k < |s.sems|
    ensures |Next(s, a).sems| == |s.sems|
    ensures WaitLine(s, k) <= WaitLine(Next(s, a), k) && s.sems[k].woken <= Next(s, a).sems[k].woken
  {
    match a
    case P(j) => TryPWaitLine(s, j, k);
    case Recheck => TryPWaitLine(s, s.threads[s.running].inP, k);
    case V(j) => VWaitLine(s, j, k);
    case InterruptV(j) => VWaitLine(s, j, k);
    case Yield =>
    case Fork =>
    case Finish => DispatchSems(SetStatus(s, s.running, Finished).(running := -1));
    case Wake => DispatchSems(s);
  }

  lemma {:induction false} TryPWaitLine(s: Kernel, j: nat, k: nat)
    requires KnownThreads(s) && 0 <= s.running < |s.threads| && j < |s.sems| && k < |s.sems|
    ensures |TryP(s, j).sems| == |s.sems|
    ensures WaitLine(s, k) <= WaitLine(TryP(s, j), k) && TryP(s, j).sems[k].woken == s.sems[k].woken
  {
    if s.sems[j].value == 0 {
      DispatchSems(Join(s, j).(running := -1));
    }
  }

  lemma {:induction false} VWaitLine(s: Kernel, j: nat, k: nat)
    requires KnownThreads(s) && j < |s.sems| && k < |s.sems|
    ensures |DoV(s, j).sems| == |s.sems|
    ensures WaitLine(DoV(s, j), k) == WaitLine(s, k) && s.sems[k].woken <= DoV(s, j).sems[k].woken
  {
    if j == k && s.sems[k].queue != [] {
      Rejoined(s.sems[k].woken, s.sems[k].queue, []);
    }
  }

  lemma {:induction false} RunWaitLine(s: Kernel, actions: seq<Action>, e: Kernel, k: nat)
    requires Runs(s, actions, e) && k < |s.sems|
    ensures |e.sems| == |s.sems| && WaitLine(s, k) <= WaitLine(e, k) && s.sems[k].woken <= e.sems[k].woken
    decreases |actions|
  {
    if actions != [] {
      NextWaitLine(s, actions[0], k);
      RunWaitLine(Next(s, actions[0]), actions[1..], e, k);
    }
  }

  /** The thread at position i of a semaphore's queue is the one that the (i+1)-th V from now that wakes
      anybody wakes, whatever happens in between; until then it waits. */
  lemma {:induction false} FirstToWaitFirstToWake(s: Kernel, actions: seq<Action>, e: Kernel, k: nat, i: nat)
    requires Runs(s, actions, e) && k < |s.sems| && i < |s.sems[k].queue|
    ensures |e.sems| == |s.sems|
    ensures var at := |s.sems[k].woken| + i;
            if |e.sems[k].woken| > at then e.sems[k].woken[at] == s.sems[k].queue[i] else s.sems[k].queue[i] in e.sems[k].queue
  {
    RunWaitLine(s, actions, e, k);
    var at := |s.sems[k].woken| + i;
    assert WaitLine(s, k)[at] == s.sems[k].queue[i] == WaitLine(e, k)[at];
  }

  /** A V wakes the thread it takes off the queue: it joins the ready list, last, and no other thread
      changes its place. */
  lemma {:induction false} VWakesFirst(s: Kernel, init: seq<nat>, k: nat, t: nat)
    requires Inv(s, init) && k < |s.sems| && t < |s.threads|
    ensures var s' := DoV(s, k);
            && s'.running == s.running && s'.ready == s.ready + s'.sems[k].woken[|s.sems[k].woken|..]
            && (t !in s'.sems[k].woken[|s.sems[k].woken|..] ==> s'.threads[t] == s.threads[t])
            && |s'.sems[k].woken| == |s.sems[k].woken| + (if s.sems[k].queue == [] then 0 else 1)
  {
    var s' := DoV(s, k);
    assert s'.sems[k].woken[|s.sems[k].woken|..] == if s.sems[k].queue == [] then [] else [s.sems[k].queue[0]];
  }

  /** The processor goes to a ready thread whenever there is one: it is left alone with somebody ready only
      when an interrupt comes while everybody sleeps, and the return from Idle ends that. */
  lemma {:induction false} NeverIdle(s: Kernel, a: Action)
    requires KnownThreads(s) && Enabled(s, a)
    ensures Next(s, a).running == -1 ==> Next(s, a).ready == [] || (a.InterruptV? && s.running == -1)
  {
  }
}
