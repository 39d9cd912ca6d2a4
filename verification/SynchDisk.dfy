/** The synchronous disk of filesys/synchdisk.cc over the asynchronous one of machine/disk.cc: any
    number of requesters, and the disk's interrupts, in every interleaving. */
module SynchDisks {

  /** Where a requester is in ReadSector or WriteSector.
      Named: has the lock's semaphore, about to record itself as holder; Issue: about to hand the
      device its request; Wait: about to P the semaphore; Test, Give, Clear: in Release, about to
      test the holder, to V, and to clear the holder. */
  datatype Pc = Outside | Named | Issue | Wait | Test | Give | Clear

  /** lock is the value of the lock's semaphore and sem that of the completion semaphore.  Requests
      are numbered from 0 as they are issued: mine[t] is the last one of requester t, and `completed`
      is the number of interrupts so far, the i-th being for request i.  failed records an ASSERT. */
  datatype State = State(pcs: seq<Pc>, mine: seq<int>, lock: nat, holder: int, sem: nat,
                         active: bool, issued: nat, completed: nat, failed: bool)

  predicate Start(s: State) {
    && s.lock == 1 && s.holder == -1 && s.sem == 0 && !s.active && s.issued == 0 && s.completed == 0 && !s.failed
    && |s.pcs| == |s.mine| && forall t :: 0 <= t < |s.pcs| ==> s.pcs[t] == Outside
  }

  datatype Action = Go(t: nat) | Interrupt

  predicate Enabled(s: State, a: Action) {
    match a
    case Interrupt => s.active
    case Go(t) =>
      t < |s.pcs| == |s.mine|
      && match s.pcs[t] case Outside => s.lock > 0 case Wait => s.sem > 0 case _ => true
  }

  function Next(s: State, a: Action): State
    requires Enabled(s, a)
  {
    match a
    case Interrupt => s.(active := false, completed := s.completed + 1, sem := s.sem + 1)
    case Go(t) =>
      match s.pcs[t]
      case Outside => s.(lock := s.lock - 1, pcs := s.pcs[t := Named])
      case Named => s.(holder := t, pcs := s.pcs[t := Issue])
      case Issue =>
        if s.active then s.(failed := true)
        else s.(active := true, issued := s.issued + 1, mine := s.mine[t := s.issued], pcs := s.pcs[t := Wait])
      case Wait => s.(sem := s.sem - 1, pcs := s.pcs[t := Test])
      case Test => s.(pcs := s.pcs[t := if s.holder == t then Give else Outside])
      case Give => s.(lock := s.lock + 1, pcs := s.pcs[t := Clear])
      case Clear => s.(holder := -1, pcs := s.pcs[t := Outside])
  }

  predicate Critical(pc: Pc) { pc != Outside && pc != Clear }

  /** One requester at a time is between taking and giving back the lock. */
  ghost predicate LockOk(s: State) {
    && s.lock <= 1
    && (forall t, u :: 0 <= t < u < |s.pcs| ==> !(Critical(s.pcs[t]) && Critical(s.pcs[u])))
    && (s.lock == 1 ==> forall t :: 0 <= t < |s.pcs| ==> !Critical(s.pcs[t]))
  }

  ghost predicate SomeoneWaits(s: State) { exists t :: 0 <= t < |s.pcs| && s.pcs[t] == Wait }

  /** The device works, or its completion is waiting to be noticed, exactly while a requester waits
      for it. */
  ghost predicate DeviceOk(s: State) {
    && !s.failed
    && s.completed + (if s.active then 1 else 0) == s.issued
    && s.sem + (if s.active then 1 else 0) == (if SomeoneWaits(s) then 1 else 0)
  }

  ghost predicate MineOk(s: State) {
    && |s.mine| == |s.pcs|
    && (forall t :: 0 <= t < |s.pcs| && s.pcs[t] == Wait ==> 0 <= s.mine[t] == s.issued - 1)
    && (forall t :: 0 <= t < |s.pcs| && s.pcs[t] in {Test, Give, Clear} ==> 0 <= s.mine[t] < s.completed)
  }

  ghost predicate Inv(s: State) { LockOk(s) && DeviceOk(s) && MineOk(s) }

  lemma {:induction false} KeepLock(s: State, a: Action)
    requires LockOk(s) && Enabled(s, a)
    ensures LockOk(Next(s, a))
  {
    if a.Go? {
      assert Critical(s.pcs[a.t]) ==> s.lock == 0;
    }
  }

  lemma {:induction false} KeepDevice(s: State, a: Action)
    requires Inv(s) && Enabled(s, a)
    ensures DeviceOk(Next(s, a))
  {
    var s' := Next(s, a);
    if a.Go? {
      var t := a.t;
      assert s.pcs[t] == Wait ==> SomeoneWaits(s);
      assert s'.pcs[t] == Wait ==> SomeoneWaits(s');
      assert forall u :: 0 <= u < |s.pcs| && u != t ==> s'.pcs[u] == s.pcs[u];
      assert Critical(s.pcs[t]) ==> forall u :: 0 <= u < |s.pcs| && u != t ==> s.pcs[u] != Wait;
      if s.pcs[t] != Wait && s'.pcs[t] != Wait {
        assert SomeoneWaits(s') == SomeoneWaits(s);
      }
    } else {
      assert SomeoneWaits(s') == SomeoneWaits(s);
    }
  }

  lemma {:induction false} KeepMine(s: State, a: Action)
    requires Inv(s) && Enabled(s, a)
    ensures MineOk(Next(s, a))
  {
    if a.Go? {
      var t := a.t;
      assert s.pcs[t] == Wait ==> SomeoneWaits(s);
      assert Critical(s.pcs[t]) ==> forall u :: 0 <= u < |s.pcs| && u != t ==> s.pcs[u] != Wait;
    }
  }

  lemma {:induction false} NextInv(s: State, a: Action)
    requires Inv(s) && Enabled(s, a)
    ensures Inv(Next(s, a))
  {
    KeepLock(s, a);
    KeepDevice(s, a);
    KeepMine(s, a);
  }

  ghost predicate Runs(s: State, actions: seq<Action>, e: State)
    decreases |actions|
  {
    if actions == [] then e == s
    else Enabled(s, actions[0]) && Runs(Next(s, actions[0]), actions[1..], e)
  }

  lemma {:induction false} RunInv(s: State, actions: seq<Action>, e: State)
    requires Inv(s) && Runs(s, actions, e)
    ensures Inv(e)
    decreases |actions|
  {
    if actions != [] {
      NextInv(s, actions[0]);
      RunInv(Next(s, actions[0]), actions[1..], e);
    }
  }

  /** In every run the device is never handed a request while it is busy, and a requester leaves
      the wait only when the interrupt for its own request has come. */
  lemma {:induction false} RequestsServed(s: State, actions: seq<Action>, e: State, t: nat)
    requires Start(s) && Runs(s, actions, e) && t < |e.pcs|
    ensures !e.failed && |e.mine| == |e.pcs|
    ensures e.pcs[t] == Issue ==> !e.active
    ensures e.pcs[t] == Wait && Enabled(e, Go(t)) ==> e.mine[t] < e.completed
    ensures e.pcs[t] in {Test, Give, Clear} ==> 0 <= e.mine[t] < e.completed
  {
    RunInv(s, actions, e);
    assert e.pcs[t] == Issue ==> forall u :: 0 <= u < |e.pcs| && u != t ==> !Critical(e.pcs[u]);
  }

  /** Nobody overtakes: while a request is outstanding it is the latest one issued, and its
      requester is the one waiting. */
  lemma {:induction false} OutstandingIsWaiting(s: State, actions: seq<Action>, e: State) returns (t: nat)
    requires Start(s) && Runs(s, actions, e) && e.active
    ensures t < |e.pcs| == |e.mine| && e.pcs[t] == Wait && e.mine[t] == e.completed == e.issued - 1
  {
    RunInv(s, actions, e);
    t :| 0 <= t < |e.pcs| && e.pcs[t] == Wait;
  }

  // ---- Is the lock given back? ----

  ghost function Holders(s: State): set<nat> { set t: nat | 0 <= t < |s.pcs| && Critical(s.pcs[t]) }

  /** The lock is free or somebody has it. */
  ghost function Tokens(s: State): nat { s.lock + |Holders(s)| }

  /** A Release that finds somebody else, or nobody, recorded as the holder does nothing. */
  predicate Loses(s: State, a: Action)
    requires Enabled(s, a)
  {
    a.Go? && s.pcs[a.t] == Test && s.holder != a.t
  }

  lemma {:induction false} HoldersAfter(s: State, t: nat, pc: Pc)
    requires t < |s.pcs|
    ensures var s' := s.(pcs := s.pcs[t := pc]);
            |Holders(s')| == |Holders(s)| + (if Critical(pc) then 1 else 0) - (if Critical(s.pcs[t]) then 1 else 0)
  {
    var s' := s.(pcs := s.pcs[t := pc]);
    assert Holders(s') - {t} == Holders(s) - {t};
    assert |Holders(s)| == |Holders(s) - {t}| + if t in Holders(s) then 1 else 0;
    assert |Holders(s')| == |Holders(s') - {t}| + if t in Holders(s') then 1 else 0;
  }

  /** The lock is lost by such a Release, and by nothing else. */
  lemma {:induction false} TokensKept(s: State, a: Action)
    requires Inv(s) && Enabled(s, a)
    ensures Tokens(Next(s, a)) == Tokens(s) - if Loses(s, a) then 1 else 0
  {
    var s' := Next(s, a);
    if a.Go? {
      var s1 := s.(pcs := s.pcs[a.t := s'.pcs[a.t]]);
      HoldersAfter(s, a.t, s'.pcs[a.t]);
      assert s'.pcs == s1.pcs && Holders(s') == Holders(s1);
    } else {
      assert Holders(s') == Holders(s);
    }
  }

  /** Once it is lost, nobody gets it any more. */
  lemma {:induction false} LostForGood(s: State, actions: seq<Action>, e: State)
    requires Inv(s) && Tokens(s) == 0 && Runs(s, actions, e)
    ensures Tokens(e) == 0 && forall t :: 0 <= t < |e.pcs| ==> !Critical(e.pcs[t])
    decreases |actions|
  {
    if actions != [] {
      NextInv(s, actions[0]);
      TokensKept(s, actions[0]);
      LostForGood(Next(s, actions[0]), actions[1..], e);
    } else {
      assert Holders(e) == {};
      assert forall t :: 0 <= t < |e.pcs| && Critical(e.pcs[t]) ==> t in Holders(e);
    }
  }

  /** The lock is taken only when nobody is still between giving it back and clearing the holder. */
  predicate Unhurried(s: State, a: Action)
    requires Enabled(s, a)
  {
    a.Go? && s.pcs[a.t] == Outside ==> forall u :: 0 <= u < |s.pcs| ==> s.pcs[u] != Clear
  }

  ghost predicate AllUnhurried(s: State, actions: seq<Action>)
    decreases |actions|
  {
    actions != [] && Enabled(s, actions[0]) ==> Unhurried(s, actions[0]) && AllUnhurried(Next(s, actions[0]), actions[1..])
  }

  /** Whoever has the lock is recorded, and nobody has it while somebody is about to clear the record. */
  ghost predicate Recorded(s: State) {
    forall t :: 0 <= t < |s.pcs| && Critical(s.pcs[t]) ==>
      (s.pcs[t] != Named ==> s.holder == t) && forall u :: 0 <= u < |s.pcs| ==> s.pcs[u] != Clear
  }

  lemma {:induction false} RecordedKept(s: State, a: Action)
    requires Inv(s) && Recorded(s) && Enabled(s, a) && Unhurried(s, a)
    ensures Recorded(Next(s, a)) && !Loses(s, a)
  {
    var s' := Next(s, a);
    if a.Go? {
      assert Critical(s.pcs[a.t]) ==> forall u :: 0 <= u < |s.pcs| && u != a.t ==> !Critical(s.pcs[u]);
      assert forall u :: 0 <= u < |s.pcs| && u != a.t ==> s'.pcs[u] == s.pcs[u];
    }
  }

  /** In runs where that is so, the lock is never lost. */
  lemma {:induction false} NeverLost(s: State, actions: seq<Action>, e: State)
    requires Inv(s) && Recorded(s) && Tokens(s) == 1 && Runs(s, actions, e) && AllUnhurried(s, actions)
    ensures Inv(e) && Tokens(e) == 1
    decreases |actions|
  {
    if actions != [] {
      NextInv(s, actions[0]);
      RecordedKept(s, actions[0]);
      TokensKept(s, actions[0]);
      NeverLost(Next(s, actions[0]), actions[1..], e);
    }
  }

  /** As long as the lock is not lost, somebody can go on. */
  lemma {:induction false} NoDeadlock(s: State) returns (a: Action)
    requires Inv(s) && Tokens(s) == 1 && |s.pcs| > 0
    ensures Enabled(s, a)
  {
    if s.lock > 0 {
      assert s.lock == 1 && !Critical(s.pcs[0]);
      a := Go(0);
    } else {
      var t :| t in Holders(s);
      assert s.pcs[t] == Wait ==> SomeoneWaits(s);
      a := if s.pcs[t] == Wait && s.sem == 0 then Interrupt else Go(t);
    }
  }

  lemma {:induction false} StartHolders(s: State)
    requires Start(s)
    ensures Inv(s) && Recorded(s) && Tokens(s) == 1
  {
    assert Holders(s) == {};
  }

  /** In every run in which the lock is taken only after it has been given back altogether, somebody can
      always go on. */
  lemma {:induction false} LockKept(s: State, actions: seq<Action>, e: State) returns (a: Action)
    requires Start(s) && Runs(s, actions, e) && AllUnhurried(s, actions) && |e.pcs| > 0
    ensures Tokens(e) == 1 && Enabled(e, a)
  {
    StartHolders(s);
    NeverLost(s, actions, e);
    a := NoDeadlock(e);
  }

  lemma {:induction false} RunsOn(s: State, actions: seq<Action>, mid: State, more: seq<Action>, e: State)
    requires Runs(s, actions, mid) && Runs(mid, more, e)
    ensures Runs(s, actions + more, e)
    decreases |actions|
  {
    if actions == [] {
      assert actions + more == more;
    } else {
      RunsOn(Next(s, actions[0]), actions[1..], mid, more, e);
      assert (actions + more)[1..] == actions[1..] + more;
    }
  }

  /** One more step of a run. */
  lemma {:induction false} More(s: State, actions: seq<Action>, mid: State, a: Action) returns (actions': seq<Action>, e: State)
    requires Runs(s, actions, mid) && Enabled(mid, a)
    ensures e == Next(mid, a) && Runs(s, actions', e)
  {
    e := Next(mid, a);
    assert [a][1..] == [];
    RunsOn(s, actions, mid, [a], e);
    actions' := actions + [a];
  }

  /** Requester 0 up to the point where it has given the lock back. */
  lemma {:induction false} FirstGives(s: State) returns (actions: seq<Action>, e: State)
    requires Start(s) && |s.pcs| == 2
    ensures Runs(s, actions, e) && |e.mine| == 2
    ensures e.pcs == [Clear, Outside] && e.lock == 1 && e.sem == 0 && !e.active
  {
    actions, e := [], s;
    actions, e := More(s, actions, e, Go(0));
    actions, e := More(s, actions, e, Go(0));
    actions, e := More(s, actions, e, Go(0));
    assert e.pcs == [Wait, Outside] && e.active && e.holder == 0;
    actions, e := More(s, actions, e, Interrupt);
    actions, e := More(s, actions, e, Go(0));
    actions, e := More(s, actions, e, Go(0));
    actions, e := More(s, actions, e, Go(0));
  }

  /** Requester 1 from there on. */
  lemma {:induction false} SecondKeeps(s: State) returns (actions: seq<Action>, e: State)
    requires s.pcs == [Clear, Outside] && |s.mine| == 2 && s.lock == 1 && s.sem == 0 && !s.active
    ensures Runs(s, actions, e) && e.pcs == [Outside, Outside] && e.lock == 0
  {
    actions, e := [], s;
    actions, e := More(s, actions, e, Go(1));
    actions, e := More(s, actions, e, Go(1));
    actions, e := More(s, actions, e, Go(0));
    assert e.pcs == [Outside, Issue] && e.holder == -1 && e.lock == 0;
    actions, e := More(s, actions, e, Go(1));
    actions, e := More(s, actions, e, Interrupt);
    actions, e := More(s, actions, e, Go(1));
    actions, e := More(s, actions, e, Go(1));
  }

  /** The first requester gives the lock back; the second takes it and records itself before the first
      clears the record; so the second does not give it back, and nobody can go on. */
  lemma {:induction false} LockLost(s: State) returns (actions: seq<Action>, e: State)
    requires Start(s) && |s.pcs| == 2
    ensures Runs(s, actions, e) && Tokens(e) == 0 && forall t :: 0 <= t < |e.pcs| ==> !Enabled(e, Go(t))
  {
    var before, mid := FirstGives(s);
    var after;
    after, e := SecondKeeps(mid);
    RunsOn(s, before, mid, after, e);
    actions := before + after;
    assert Holders(e) == {};
  }
}
