/** The readers-writers lock of threads/synch.cc, built from a Lock whose Release does V before it
    clears the holder.  Every shared access is a step of its own. */
module RWLocks {

  /** Where a thread is.
      In(1): in rdLock with rdlock's semaphore, about to record itself as holder;
      In(2): about to test readers; In(3): about to P wrlock; In(4): about to count itself;
      In(5): in Release, about to test the holder; In(6): about to V; In(7): about to clear the holder.
      Out(n): the same in rdUnlock, where Out(2) is about to subtract itself, Out(3) about to test
      readers and Out(4) about to V wrlock. */
  datatype Pc = Outside | In(n: nat) | Reading | Out(n: nat) | Writing

  /** lock is the value of rdlock's semaphore and wrlock that of wrlock; holder is -1 for none. */
  datatype State = State(pcs: seq<Pc>, lock: nat, holder: int, wrlock: nat, readers: int)

  predicate Start(s: State) {
    s.lock == 1 && s.holder == -1 && s.wrlock == 1 && s.readers == 0 && forall t :: 0 <= t < |s.pcs| ==> s.pcs[t] == Outside
  }

  predicate Enabled(s: State, t: nat) {
    t < |s.pcs|
    && match s.pcs[t]
       case Outside => s.lock > 0 || s.wrlock > 0
       case In(n) => 1 <= n <= 7 && (n == 3 ==> s.wrlock > 0)
       case Reading => s.lock > 0
       case Out(n) => 1 <= n <= 7
       case Writing => true
  }

  /** A step of thread t; `write` says which call a thread outside makes, if it has the choice. */
  predicate Step(s: State, t: nat, write: bool, s': State)
    requires Enabled(s, t)
  {
    match s.pcs[t]
    case Outside =>
      if write then s.wrlock > 0 && s' == s.(wrlock := s.wrlock - 1, pcs := s.pcs[t := Writing])
      else s.lock > 0 && s' == s.(lock := s.lock - 1, pcs := s.pcs[t := In(1)])
    case In(n) =>
      if n == 1 then s' == s.(holder := t, pcs := s.pcs[t := In(2)])
      else if n == 2 then s' == s.(pcs := s.pcs[t := if s.readers == 0 then In(3) else In(4)])
      else if n == 3 then s' == s.(wrlock := s.wrlock - 1, pcs := s.pcs[t := In(4)])
      else if n == 4 then s' == s.(readers := s.readers + 1, pcs := s.pcs[t := In(5)])
      else if n == 5 then s' == s.(pcs := s.pcs[t := if s.holder == t then In(6) else Reading])
      else if n == 6 then s' == s.(lock := s.lock + 1, pcs := s.pcs[t := In(7)])
      else s' == s.(holder := -1, pcs := s.pcs[t := Reading])
    case Reading => s' == s.(lock := s.lock - 1, pcs := s.pcs[t := Out(1)])
    case Out(n) =>
      if n == 1 then s' == s.(holder := t, pcs := s.pcs[t := Out(2)])
      else if n == 2 then s' == s.(readers := s.readers - 1, pcs := s.pcs[t := Out(3)])
      else if n == 3 then s' == s.(pcs := s.pcs[t := if s.readers == 0 then Out(4) else Out(5)])
      else if n == 4 then s' == s.(wrlock := s.wrlock + 1, pcs := s.pcs[t := Out(5)])
      else if n == 5 then s' == s.(pcs := s.pcs[t := if s.holder == t then Out(6) else Outside])
      else if n == 6 then s' == s.(lock := s.lock + 1, pcs := s.pcs[t := Out(7)])
      else s' == s.(holder := -1, pcs := s.pcs[t := Outside])
    case Writing => s' == s.(wrlock := s.wrlock + 1, pcs := s.pcs[t := Outside])
  }

  // ---- The invariant ----

  /** Between P and V on rdlock's semaphore. */
  predicate Critical(pc: Pc) { (pc.In? || pc.Out?) && pc.n < 7 }

  /** Counted in readers. */
  predicate Counted(pc: Pc) {
    match pc case In(n) => n >= 5 case Reading => true case Out(n) => n <= 2 case _ => false
  }

  /** In the middle of handing wrlock over between the readers and the writers. */
  predicate Handing(pc: Pc) { pc == In(4) || pc == Out(3) || pc == Out(4) }

  ghost function CountedSet(s: State): set<nat> { set t: nat | 0 <= t < |s.pcs| && Counted(s.pcs[t]) }

  ghost function Writers(s: State): set<nat> { set t: nat | 0 <= t < |s.pcs| && s.pcs[t] == Writing }

  /** The readers as a group have taken wrlock. */
  ghost predicate GroupHolds(s: State) {
    s.readers > 0 || exists t :: 0 <= t < |s.pcs| && Handing(s.pcs[t])
  }

  ghost predicate Inv(s: State) {
    && s.lock <= 1
    && (forall t, u :: 0 <= t < u < |s.pcs| ==> !(Critical(s.pcs[t]) && Critical(s.pcs[u])))
    && (s.lock == 1 ==> forall t :: 0 <= t < |s.pcs| ==> !Critical(s.pcs[t]))
    && s.readers == |CountedSet(s)|
    && (forall t :: 0 <= t < |s.pcs| ==> (s.pcs[t] == In(3) || s.pcs[t] == Out(4) ==> s.readers == 0))
    && s.wrlock + |Writers(s)| + (if GroupHolds(s) then 1 else 0) == 1
  }

  // ---- Steps keep it ----

  lemma Without(a: set<nat>, t: nat)
    ensures |a| == |a - {t}| + if t in a then 1 else 0
  {
    if t in a {
      assert a == (a - {t}) + {t};
    } else {
      assert a == a - {t};
    }
  }

  lemma {:induction false} CountedAfter(s: State, t: nat, pc: Pc)
    requires t < |s.pcs|
    ensures var s' := s.(pcs := s.pcs[t := pc]);
            |CountedSet(s')| == |CountedSet(s)| + (if Counted(pc) then 1 else 0) - (if Counted(s.pcs[t]) then 1 else 0)
  {
    var s' := s.(pcs := s.pcs[t := pc]);
    assert CountedSet(s') - {t} == CountedSet(s) - {t};
    Without(CountedSet(s), t);
    Without(CountedSet(s'), t);
  }

  lemma {:induction false} WritersAfter(s: State, t: nat, pc: Pc)
    requires t < |s.pcs|
    ensures var s' := s.(pcs := s.pcs[t := pc]);
            |Writers(s')| == |Writers(s)| + (if pc == Writing then 1 else 0) - (if s.pcs[t] == Writing then 1 else 0)
  {
    var s' := s.(pcs := s.pcs[t := pc]);
    assert Writers(s') - {t} == Writers(s) - {t};
    Without(Writers(s), t);
    Without(Writers(s'), t);
  }

  /** The counts depend on nothing but the threads' places. */
  lemma {:induction false} StepCounts(s: State, t: nat, write: bool, s': State)
    requires Enabled(s, t) && Step(s, t, write, s')
    ensures |s'.pcs| == |s.pcs| && s'.pcs == s.pcs[t := s'.pcs[t]]
    ensures |CountedSet(s')| == |CountedSet(s)| + (if Counted(s'.pcs[t]) then 1 else 0) - (if Counted(s.pcs[t]) then 1 else 0)
    ensures |Writers(s')| == |Writers(s)| + (if s'.pcs[t] == Writing then 1 else 0) - (if s.pcs[t] == Writing then 1 else 0)
  {
    CountedAfter(s, t, s'.pcs[t]);
    WritersAfter(s, t, s'.pcs[t]);
    assert CountedSet(s') == CountedSet(s.(pcs := s'.pcs));
    assert Writers(s') == Writers(s.(pcs := s'.pcs));
  }

  lemma {:induction false} KeepLock(s: State, t: nat, write: bool, s': State)
    requires Inv(s) && Enabled(s, t) && Step(s, t, write, s')
    ensures s'.lock <= 1
    ensures forall u, v :: 0 <= u < v < |s'.pcs| ==> !(Critical(s'.pcs[u]) && Critical(s'.pcs[v]))
    ensures s'.lock == 1 ==> forall u :: 0 <= u < |s'.pcs| ==> !Critical(s'.pcs[u])
  {
    StepCounts(s, t, write, s');
    assert Critical(s.pcs[t]) ==> s.lock == 0;
  }

  lemma {:induction false} KeepReaders(s: State, t: nat, write: bool, s': State)
    requires Inv(s) && Enabled(s, t) && Step(s, t, write, s')
    ensures s'.readers == |CountedSet(s')|
    ensures forall u :: 0 <= u < |s'.pcs| ==> (s'.pcs[u] == In(3) || s'.pcs[u] == Out(4) ==> s'.readers == 0)
  {
    StepCounts(s, t, write, s');
    assert Critical(s.pcs[t]) ==> forall u :: 0 <= u < |s.pcs| && u != t ==> !Critical(s.pcs[u]);
  }

  lemma {:induction false} KeepGroup(s: State, t: nat, write: bool, s': State)
    requires Inv(s) && Enabled(s, t) && Step(s, t, write, s')
    ensures s'.wrlock + |Writers(s')| + (if GroupHolds(s') then 1 else 0) == 1
  {
    StepCounts(s, t, write, s');
    KeepReaders(s, t, write, s');
    var pc := s.pcs[t];
    assert Critical(pc) ==> forall u :: 0 <= u < |s.pcs| && u != t ==> !Handing(s.pcs[u]);
    assert forall u :: 0 <= u < |s.pcs| && u != t ==> Handing(s'.pcs[u]) == Handing(s.pcs[u]);
    assert Handing(s'.pcs[t]) ==> GroupHolds(s');
    assert Handing(pc) ==> GroupHolds(s);
    if pc == Out(2) {
      assert t in CountedSet(s);
    }
    if !Critical(pc) {
      assert GroupHolds(s') == GroupHolds(s);
    }
  }

  lemma {:induction false} StepInv(s: State, t: nat, write: bool, s': State)
    requires Inv(s) && Enabled(s, t) && Step(s, t, write, s')
    ensures Inv(s')
  {
    KeepLock(s, t, write, s');
    KeepReaders(s, t, write, s');
    KeepGroup(s, t, write, s');
  }

  // ---- Whole runs ----

  /** Each entry names the thread that steps and the call it makes if it is outside. */
  ghost predicate Runs(s: State, schedule: seq<(nat, bool)>, e: State)
    decreases |schedule|
  {
    if schedule == [] then e == s
    else
      var (t, write) := schedule[0];
      Enabled(s, t) && exists s' :: Step(s, t, write, s') && Runs(s', schedule[1..], e)
  }

  lemma {:induction false} RunInv(s: State, schedule: seq<(nat, bool)>, e: State)
    requires Inv(s) && Runs(s, schedule, e)
    ensures Inv(e)
    decreases |schedule|
  {
    if schedule != [] {
      var (t, write) := schedule[0];
      var s' :| Step(s, t, write, s') && Runs(s', schedule[1..], e);
      StepInv(s, t, write, s');
      RunInv(s', schedule[1..], e);
    }
  }

  lemma {:induction false} StartInv(s: State)
    requires Start(s)
    ensures Inv(s)
  {
    assert CountedSet(s) == {} && Writers(s) == {};
  }

  lemma {:induction false} NoOtherWriter(e: State, w: nat, t: nat)
    requires Inv(e) && w < |e.pcs| && t < |e.pcs| && t != w && e.pcs[w] == Writing
    ensures e.pcs[t] != Writing
  {
    assert w in Writers(e) && (e.pcs[t] == Writing ==> t in Writers(e));
    Without(Writers(e), w);
    Without(Writers(e) - {w}, t);
  }

  lemma {:induction false} NoReader(e: State, w: nat, t: nat)
    requires Inv(e) && w < |e.pcs| && t < |e.pcs| && e.pcs[w] == Writing
    ensures e.pcs[t] != Reading
  {
    assert w in Writers(e) && (e.pcs[t] == Reading ==> t in CountedSet(e));
    Without(Writers(e), w);
    Without(CountedSet(e), t);
  }

  /** Mutual exclusion in every run: a writer inside is alone. */
  lemma {:induction false} WriterAlone(s: State, schedule: seq<(nat, bool)>, e: State, w: nat, t: nat)
    requires Start(s) && Runs(s, schedule, e)
    requires w < |e.pcs| && t < |e.pcs| && t != w && e.pcs[w] == Writing
    ensures e.pcs[t] != Writing && e.pcs[t] != Reading
  {
    StartInv(s);
    RunInv(s, schedule, e);
    NoOtherWriter(e, w, t);
    NoReader(e, w, t);
  }

  // ---- Is rdlock given back? ----

  ghost function Holders(s: State): set<nat> { set t: nat | 0 <= t < |s.pcs| && Critical(s.pcs[t]) }

  /** rdlock is free or somebody has it. */
  ghost function Tokens(s: State): nat { s.lock + |Holders(s)| }

  /** A Release that finds somebody else, or nobody, recorded as the holder does nothing. */
  predicate Loses(s: State, t: nat)
    requires t < |s.pcs|
  {
    (s.pcs[t] == In(5) || s.pcs[t] == Out(5)) && s.holder != t
  }

  /** rdlock is lost by such a Release, and by nothing else. */
  lemma {:induction false} TokensKept(s: State, t: nat, write: bool, s': State)
    requires Inv(s) && Enabled(s, t) && Step(s, t, write, s')
    ensures Tokens(s') == Tokens(s) - if Loses(s, t) then 1 else 0
  {
    StepCounts(s, t, write, s');
    HoldersAfter(s, t, s');
  }

  lemma {:induction false} HoldersAfter(s: State, t: nat, s': State)
    requires t < |s.pcs| && |s'.pcs| == |s.pcs| && s'.pcs == s.pcs[t := s'.pcs[t]]
    ensures |Holders(s')| == |Holders(s)| + (if Critical(s'.pcs[t]) then 1 else 0) - (if Critical(s.pcs[t]) then 1 else 0)
  {
    assert Holders(s') - {t} == Holders(s) - {t};
    Without(Holders(s), t);
    Without(Holders(s'), t);
  }

  /** Nobody is between giving rdlock back and clearing the holder. */
  predicate NobodyClears(s: State) { forall u :: 0 <= u < |s.pcs| ==> s.pcs[u] != In(7) && s.pcs[u] != Out(7) }

  /** rdlock is taken only when that is so. */
  predicate Unhurried(s: State, t: nat, write: bool)
    requires Enabled(s, t)
  {
    (s.pcs[t] == Outside && !write) || s.pcs[t] == Reading ==> NobodyClears(s)
  }

  /** Runs in which that is so. */
  ghost predicate UnhurriedRuns(s: State, schedule: seq<(nat, bool)>, e: State)
    decreases |schedule|
  {
    if schedule == [] then e == s
    else
      var (t, write) := schedule[0];
      Enabled(s, t) && Unhurried(s, t, write) && exists s' :: Step(s, t, write, s') && UnhurriedRuns(s', schedule[1..], e)
  }

  /** Whoever has rdlock is recorded. */
  predicate RecordedAt(s: State, t: nat)
    requires t < |s.pcs|
  {
    Critical(s.pcs[t]) ==> 1 <= s.pcs[t].n && (s.pcs[t].n > 1 ==> s.holder == t)
  }

  ghost predicate Recorded(s: State) {
    (s.lock == 0 ==> NobodyClears(s)) && forall t {:trigger RecordedAt(s, t)} :: 0 <= t < |s.pcs| ==> RecordedAt(s, t)
  }

  lemma {:induction false} RecordedKept(s: State, t: nat, write: bool, s': State)
    requires Inv(s) && Recorded(s) && Enabled(s, t) && Unhurried(s, t, write) && Step(s, t, write, s')
    ensures Recorded(s') && !Loses(s, t)
  {
    assert RecordedAt(s, t) && RecordedAt(s', t);
    forall u | 0 <= u < |s'.pcs|
      ensures RecordedAt(s', u)
    {
      RecordedOther(s, t, write, s', u);
    }
    ClearedKept(s, t, write, s');
  }

  lemma {:induction false} RecordedOther(s: State, t: nat, write: bool, s': State, u: nat)
    requires Inv(s) && Recorded(s) && Enabled(s, t) && Step(s, t, write, s') && u < |s.pcs|
    ensures RecordedAt(s', u)
  {
    assert RecordedAt(s, t) && RecordedAt(s, u);
    if u != t {
      assert s'.pcs[u] == s.pcs[u] && !(Critical(s.pcs[t]) && Critical(s.pcs[u]));
    }
  }

  lemma {:induction false} ClearedKept(s: State, t: nat, write: bool, s': State)
    requires Inv(s) && Recorded(s) && Enabled(s, t) && Unhurried(s, t, write) && Step(s, t, write, s')
    ensures s'.lock == 0 ==> NobodyClears(s')
  {
  }

  /** As long as rdlock is not lost, somebody can go on. */
  lemma {:induction false} NoDeadlock(s: State) returns (t: nat)
    requires Inv(s) && InSteps(s) && Tokens(s) == 1 && |s.pcs| > 0
    ensures Enabled(s, t)
  {
    if s.lock > 0 {
      t := 0;
      assert !Critical(s.pcs[0]);
    } else {
      t :| t in Holders(s);
      if s.pcs[t] == In(3) && s.wrlock == 0 {
        NobodyReads(s, t);
        assert Writers(s) != {};
        t :| t in Writers(s);
      }
    }
  }

  lemma {:induction false} NobodyReads(s: State, t: nat)
    requires Inv(s) && t < |s.pcs| && s.pcs[t] == In(3)
    ensures !GroupHolds(s)
  {
    assert forall u :: 0 <= u < |s.pcs| && Handing(s.pcs[u]) ==> Critical(s.pcs[u]) && u != t;
  }

  ghost predicate InSteps(s: State) {
    forall u :: 0 <= u < |s.pcs| && (s.pcs[u].In? || s.pcs[u].Out?) ==> 1 <= s.pcs[u].n <= 7
  }

  lemma {:induction false} StaysInSteps(s: State, t: nat, write: bool, s': State)
    requires InSteps(s) && Enabled(s, t) && Step(s, t, write, s')
    ensures InSteps(s')
  {
  }

  lemma {:induction false} NeverLost(s: State, schedule: seq<(nat, bool)>, e: State)
    requires Inv(s) && Recorded(s) && InSteps(s) && Tokens(s) == 1 && UnhurriedRuns(s, schedule, e)
    ensures Inv(e) && Recorded(e) && InSteps(e) && Tokens(e) == 1
    decreases |schedule|
  {
    if schedule != [] {
      var (t, write) := schedule[0];
      var s' :| Step(s, t, write, s') && UnhurriedRuns(s', schedule[1..], e);
      StepInv(s, t, write, s');
      RecordedKept(s, t, write, s');
      TokensKept(s, t, write, s');
      StaysInSteps(s, t, write, s');
      NeverLost(s', schedule[1..], e);
    }
  }

  /** In every run in which rdlock is taken only after it has been given back altogether, somebody can
      always go on. */
  lemma {:induction false} LockKept(s: State, schedule: seq<(nat, bool)>, e: State) returns (t: nat)
    requires Start(s) && UnhurriedRuns(s, schedule, e) && |e.pcs| > 0
    ensures Tokens(e) == 1 && Enabled(e, t)
  {
    StartInv(s);
    assert Holders(s) == {};
    NeverLost(s, schedule, e);
    t := NoDeadlock(e);
  }

  lemma {:induction false} RunsOn(s: State, before: seq<(nat, bool)>, mid: State, after: seq<(nat, bool)>, e: State)
    requires Runs(s, before, mid) && Runs(mid, after, e)
    ensures Runs(s, before + after, e)
    decreases |before|
  {
    if before == [] {
      assert before + after == after;
    } else {
      var (t, write) := before[0];
      var s' :| Step(s, t, write, s') && Runs(s', before[1..], mid);
      RunsOn(s', before[1..], mid, after, e);
      assert (before + after)[1..] == before[1..] + after;
    }
  }

  /** One more step of a run, for a thread that reads. */
  lemma {:induction false} More(s: State, schedule: seq<(nat, bool)>, mid: State, t: nat, e: State) returns (more: seq<(nat, bool)>)
    requires Runs(s, schedule, mid) && Enabled(mid, t) && Step(mid, t, false, e)
    ensures Runs(s, more, e)
  {
    assert [(t, false)][1..] == [];
    assert Runs(e, [], e);
    RunsOn(s, schedule, mid, [(t, false)], e);
    more := schedule + [(t, false)];
  }

  /** The first reader up to the point where it has given rdlock back. */
  lemma {:induction false} FirstGives(s: State) returns (schedule: seq<(nat, bool)>, e: State)
    requires Start(s) && |s.pcs| == 2
    ensures Runs(s, schedule, e) && e == State([In(7), Outside], 1, 0, 0, 1)
  {
    var pcs := s.pcs;
    assert pcs == [Outside, Outside];
    schedule := More(s, [], s, 0, State([In(1), Outside], 0, -1, 1, 0));
    schedule := More(s, schedule, State([In(1), Outside], 0, -1, 1, 0), 0, State([In(2), Outside], 0, 0, 1, 0));
    schedule := More(s, schedule, State([In(2), Outside], 0, 0, 1, 0), 0, State([In(3), Outside], 0, 0, 1, 0));
    schedule := More(s, schedule, State([In(3), Outside], 0, 0, 1, 0), 0, State([In(4), Outside], 0, 0, 0, 0));
    schedule := More(s, schedule, State([In(4), Outside], 0, 0, 0, 0), 0, State([In(5), Outside], 0, 0, 0, 1));
    schedule := More(s, schedule, State([In(5), Outside], 0, 0, 0, 1), 0, State([In(6), Outside], 0, 0, 0, 1));
    e := State([In(7), Outside], 1, 0, 0, 1);
    schedule := More(s, schedule, State([In(6), Outside], 0, 0, 0, 1), 0, e);
  }

  /** Two readers: the second takes rdlock and records itself before the first clears the record, and so
      does not give rdlock back.  Both are reading then, and neither can ever leave. */
  lemma {:induction false} LockLost(s: State) returns (schedule: seq<(nat, bool)>, e: State)
    requires Start(s) && |s.pcs| == 2
    ensures Runs(s, schedule, e) && e.pcs == [Reading, Reading] && forall t :: 0 <= t < |e.pcs| ==> !Enabled(e, t)
  {
    var mid;
    schedule, mid := FirstGives(s);
    schedule := More(s, schedule, mid, 1, State([In(7), In(1)], 0, 0, 0, 1));
    schedule := More(s, schedule, State([In(7), In(1)], 0, 0, 0, 1), 1, State([In(7), In(2)], 0, 1, 0, 1));
    schedule := More(s, schedule, State([In(7), In(2)], 0, 1, 0, 1), 0, State([Reading, In(2)], 0, -1, 0, 1));
    schedule := More(s, schedule, State([Reading, In(2)], 0, -1, 0, 1), 1, State([Reading, In(4)], 0, -1, 0, 1));
    schedule := More(s, schedule, State([Reading, In(4)], 0, -1, 0, 1), 1, State([Reading, In(5)], 0, -1, 0, 2));
    e := State([Reading, Reading], 0, -1, 0, 2);
    schedule := More(s, schedule, State([Reading, In(5)], 0, -1, 0, 2), 1, e);
  }
}
