/** The locked transfer phases of OpenFile::ReadAt and WriteAt, as a transition system: every request
    takes the array mutex, then the mutex of each of its sectors in turn, gives the array mutex back,
    and then moves and unlocks its sectors one by one. */
module Transfers {
  import opened Codec
  import opened Disks
  import opened SectorRuns

  datatype Request = Read(sectors: seq<int>) | Write(sectors: seq<int>, data: seq<Sector>)

  /** What ReadAt and WriteAt ask for: distinct sectors, and a filled buffer for a write. */
  ghost predicate Proper(r: Request) {
    Layout(r.sectors) && (r.Write? ==> |r.data| == |r.sectors|)
  }

  /** Where a request is.  Locking(k) holds the array mutex and k sectors; Moving(k) is about to
      transfer sector k; Unlocking(k) has done so and is about to release it. */
  datatype Pc = Start | Locking(k: nat) | Moving(k: nat) | Unlocking(k: nat)

  /** log lists the requests in the order in which they took the array mutex. */
  datatype State = State(disk: Platter, pcs: seq<Pc>, bufs: seq<seq<Sector>>,
                         arrayFree: bool, locked: set<int>, log: seq<nat>)

  predicate Finished(r: Request, pc: Pc) { pc == Moving(|r.sectors|) }

  ghost predicate Init(reqs: seq<Request>, init: Platter, s: State) {
    && s.disk == init && s.arrayFree && s.locked == {} && s.log == []
    && |s.pcs| == |s.bufs| == |reqs|
    && forall t :: 0 <= t < |reqs| ==> s.pcs[t] == Start && s.bufs[t] == []
  }

  ghost predicate Shaped(reqs: seq<Request>, s: State) {
    && |s.pcs| == |s.bufs| == |reqs|
    && (forall t :: 0 <= t < |reqs| ==> Proper(reqs[t]) && InRange(reqs[t], s.pcs[t]))
  }

  predicate InRange(r: Request, pc: Pc) {
    match pc
    case Start => true
    case Locking(k) => k <= |r.sectors|
    case Moving(k) => k <= |r.sectors|
    case Unlocking(k) => k < |r.sectors|
  }

  /** Request t can take its next step: it is unfinished and not blocked on a mutex. */
  ghost predicate Enabled(reqs: seq<Request>, s: State, t: nat)
    requires Shaped(reqs, s) && t < |reqs|
  {
    match s.pcs[t]
    case Start => s.arrayFree
    case Locking(k) => k < |reqs[t].sectors| ==> reqs[t].sectors[k] !in s.locked
    case Moving(k) => k < |reqs[t].sectors|
    case Unlocking(k) => true
  }

  ghost function After(reqs: seq<Request>, s: State, t: nat): State
    requires Shaped(reqs, s) && t < |reqs| && Enabled(reqs, s, t)
  {
    var r := reqs[t];
    match s.pcs[t]
    case Start => s.(arrayFree := false, log := s.log + [t], pcs := s.pcs[t := Locking(0)])
    case Locking(k) =>
      if k < |r.sectors| then s.(locked := s.locked + {r.sectors[k]}, pcs := s.pcs[t := Locking(k + 1)])
      else s.(arrayFree := true, pcs := s.pcs[t := Moving(0)])
    case Moving(k) =>
      assert IsSector(r.sectors[k]);
      if r.Read? then s.(bufs := s.bufs[t := s.bufs[t] + [s.disk[r.sectors[k]]]], pcs := s.pcs[t := Unlocking(k)])
      else s.(disk := s.disk[r.sectors[k] := r.data[k]], pcs := s.pcs[t := Unlocking(k)])
    case Unlocking(k) => s.(locked := s.locked - {r.sectors[k]}, pcs := s.pcs[t := Moving(k + 1)])
  }

  // ---- Requests one at a time ----

  /** The disk after the first k transfers of a request that runs alone. */
  function Alone(d: Platter, r: Request, k: nat): Platter
    requires Proper(r) && k <= |r.sectors|
  {
    if k == 0 || r.Read? then d
    else
      assert IsSector(r.sectors[k - 1]);
      Alone(d, r, k - 1)[r.sectors[k - 1] := r.data[k - 1]]
  }

  /** The disk after the first n logged requests, each run alone. */
  function Serial(reqs: seq<Request>, init: Platter, log: seq<nat>, n: nat): Platter
    requires forall t :: 0 <= t < |reqs| ==> Proper(reqs[t])
    requires n <= |log| && forall p :: 0 <= p < |log| ==> log[p] < |reqs|
  {
    if n == 0 then init
    else
      var r := reqs[log[n - 1]];
      Alone(Serial(reqs, init, log, n - 1), r, |r.sectors|)
  }

  // ---- Progress of one request on one sector ----

  /** The position of a sector in a request, or -1. */
  ghost function Pos(r: Request, x: int): (i: int)
    ensures i == -1 <==> x !in r.sectors
    ensures i != -1 ==> 0 <= i < |r.sectors| && r.sectors[i] == x
  {
    if x in r.sectors then var i :| 0 <= i < |r.sectors| && r.sectors[i] == x; i else -1
  }

  lemma PosAt(r: Request, k: nat)
    requires Proper(r) && k < |r.sectors|
    ensures Pos(r, r.sectors[k]) == k
  {
  }

  ghost predicate Acquired(r: Request, pc: Pc, x: int) {
    x in r.sectors && match pc case Start => false case Locking(k) => Pos(r, x) < k case _ => true
  }

  ghost predicate Released(r: Request, pc: Pc, x: int) {
    x in r.sectors && match pc case Start => false case Locking(_) => false case Moving(k) => Pos(r, x) < k case Unlocking(k) => Pos(r, x) < k
  }

  ghost predicate Moved(r: Request, pc: Pc, x: int) {
    x in r.sectors && match pc case Start => false case Locking(_) => false case Moving(k) => Pos(r, x) < k case Unlocking(k) => Pos(r, x) <= k
  }

  ghost predicate Holds(r: Request, pc: Pc, x: int) { Acquired(r, pc, x) && !Released(r, pc, x) }

  // ---- The invariant ----

  ghost predicate LogOk(reqs: seq<Request>, s: State)
    requires Shaped(reqs, s)
  {
    && (forall p :: 0 <= p < |s.log| ==> s.log[p] < |reqs| && s.pcs[s.log[p]] != Start)
    && (forall p, q :: 0 <= p < q < |s.log| ==> s.log[p] != s.log[q])
    && (forall t :: 0 <= t < |reqs| && s.pcs[t] != Start ==> t in s.log)
  }

  /** Only the last logged request can be locking, and it is exactly when the array mutex is taken. */
  ghost predicate ArrayOk(reqs: seq<Request>, s: State)
    requires Shaped(reqs, s) && LogOk(reqs, s)
  {
    && (!s.arrayFree ==> s.log != [] && s.pcs[s.log[|s.log| - 1]].Locking?)
    && (forall t :: 0 <= t < |reqs| && s.pcs[t].Locking? ==> !s.arrayFree && s.log != [] && s.log[|s.log| - 1] == t)
  }

  /** The mutex of sector x is taken exactly when some request holds it, and by one request only. */
  ghost predicate LockOk(reqs: seq<Request>, s: State, x: int)
    requires Shaped(reqs, s)
  {
    && (forall t :: 0 <= t < |reqs| && Holds(reqs[t], s.pcs[t], x) ==> x in s.locked)
    && (x in s.locked ==> exists t :: 0 <= t < |reqs| && Holds(reqs[t], s.pcs[t], x))
    && (forall t, u :: 0 <= t < u < |reqs| ==> !(Holds(reqs[t], s.pcs[t], x) && Holds(reqs[u], s.pcs[u], x)))
  }

  ghost predicate LocksOk(reqs: seq<Request>, s: State)
    requires Shaped(reqs, s)
  {
    forall x :: LockOk(reqs, s, x)
  }

  /** A sector reaches a request only after every earlier request on it has released it. */
  ghost predicate OrderOk(reqs: seq<Request>, s: State)
    requires Shaped(reqs, s) && LogOk(reqs, s)
  {
    forall p, q, x :: 0 <= p < q < |s.log| && Acquired(reqs[s.log[q]], s.pcs[s.log[q]], x) && x in reqs[s.log[p]].sectors ==>
      Released(reqs[s.log[p]], s.pcs[s.log[p]], x)
  }

  /** The value of sector x when only the transfers made so far by the first n logged requests count. */
  ghost function Current(reqs: seq<Request>, init: Platter, s: State, n: nat, x: int): Sector
    requires Shaped(reqs, s) && LogOk(reqs, s) && n <= |s.log| && IsSector(x)
  {
    if n == 0 then init[x]
    else
      var t := s.log[n - 1];
      if reqs[t].Write? && Moved(reqs[t], s.pcs[t], x) then reqs[t].data[Pos(reqs[t], x)]
      else Current(reqs, init, s, n - 1, x)
  }

  ghost predicate DiskOk(reqs: seq<Request>, init: Platter, s: State)
    requires Shaped(reqs, s) && LogOk(reqs, s)
  {
    forall x :: IsSector(x) ==> s.disk[x] == Current(reqs, init, s, |s.log|, x)
  }

  function MovedCount(pc: Pc): nat {
    match pc case Start => 0 case Locking(_) => 0 case Moving(k) => k case Unlocking(k) => k + 1
  }

  /** What a read has fetched so far is what it would fetch running alone at its place in the log. */
  ghost predicate BufsOk(reqs: seq<Request>, init: Platter, s: State)
    requires Shaped(reqs, s) && LogOk(reqs, s)
  {
    && (forall t :: 0 <= t < |reqs| && reqs[t].Read? ==> |s.bufs[t]| == MovedCount(s.pcs[t]))
    && (forall p, k :: 0 <= p < |s.log| && reqs[s.log[p]].Read? && 0 <= k < MovedCount(s.pcs[s.log[p]]) ==>
          Fetched(reqs, init, s, p, k))
  }

  ghost predicate Fetched(reqs: seq<Request>, init: Platter, s: State, p: nat, k: nat)
    requires Shaped(reqs, s) && LogOk(reqs, s) && p < |s.log|
    requires k < |reqs[s.log[p]].sectors| && k < |s.bufs[s.log[p]]|
  {
    var x := reqs[s.log[p]].sectors[k];
    IsSector(x) && s.bufs[s.log[p]][k] == Serial(reqs, init, s.log, p)[x]
  }

  ghost predicate Inv(reqs: seq<Request>, init: Platter, s: State) {
    Shaped(reqs, s) && LogOk(reqs, s) && ArrayOk(reqs, s) && LocksOk(reqs, s) && OrderOk(reqs, s)
    && DiskOk(reqs, init, s) && BufsOk(reqs, init, s)
  }

  // ---- Every step keeps it ----

  lemma {:induction false} KeepLog(reqs: seq<Request>, s: State, t: nat)
    requires Shaped(reqs, s) && LogOk(reqs, s) && t < |reqs| && Enabled(reqs, s, t)
    ensures Shaped(reqs, After(reqs, s, t)) && LogOk(reqs, After(reqs, s, t))
    ensures s.log <= After(reqs, s, t).log
    ensures s.pcs[t] != Start ==> After(reqs, s, t).log == s.log
  {
    var s' := After(reqs, s, t);
    if s.pcs[t] == Start {
      forall u | 0 <= u < |reqs| && s'.pcs[u] != Start
        ensures u in s'.log
      {
        assert s'.log[|s.log|] == t;
      }
    }
  }

  lemma {:induction false} KeepArray(reqs: seq<Request>, s: State, t: nat)
    requires Shaped(reqs, s) && LogOk(reqs, s) && ArrayOk(reqs, s) && t < |reqs| && Enabled(reqs, s, t)
    requires Shaped(reqs, After(reqs, s, t)) && LogOk(reqs, After(reqs, s, t))
    ensures ArrayOk(reqs, After(reqs, s, t))
  {
  }

  /** How one step changes what a request holds. */
  lemma {:induction false} HoldsAfter(reqs: seq<Request>, s: State, t: nat, x: int)
    requires Shaped(reqs, s) && t < |reqs| && Enabled(reqs, s, t)
    ensures var r, pc, pc' := reqs[t], s.pcs[t], After(reqs, s, t).pcs[t];
            && (Acquired(r, pc', x) <==> Acquired(r, pc, x) || (pc.Locking? && pc.k < |r.sectors| && x == r.sectors[pc.k]))
            && (Released(r, pc', x) <==> Released(r, pc, x) || (pc.Unlocking? && x == r.sectors[pc.k]))
            && (Moved(r, pc', x) <==> Moved(r, pc, x) || (pc.Moving? && x == r.sectors[pc.k]))
  {
    var r, pc := reqs[t], s.pcs[t];
    if !pc.Start? && pc.k < |r.sectors| {
      PosAt(r, pc.k);
    }
  }

  /** A step changes what is held and what is locked alike. */
  lemma {:induction false} LockAfter(reqs: seq<Request>, s: State, t: nat, x: int)
    requires Shaped(reqs, s) && LockOk(reqs, s, x) && t < |reqs| && Enabled(reqs, s, t)
    requires Shaped(reqs, After(reqs, s, t))
    ensures var s' := After(reqs, s, t);
            && (forall u :: 0 <= u < |reqs| && u != t ==> s'.pcs[u] == s.pcs[u])
            && (Holds(reqs[t], s'.pcs[t], x) && !Holds(reqs[t], s.pcs[t], x) ==> x in s'.locked && x !in s.locked)
            && (x in s'.locked && x !in s.locked ==> Holds(reqs[t], s'.pcs[t], x))
            && (x in s.locked && x !in s'.locked ==> Holds(reqs[t], s.pcs[t], x) && !Holds(reqs[t], s'.pcs[t], x))
            && (Holds(reqs[t], s.pcs[t], x) && !Holds(reqs[t], s'.pcs[t], x) ==> x !in s'.locked)
  {
    HoldsAfter(reqs, s, t, x);
    var r, pc := reqs[t], s.pcs[t];
    if !pc.Start? && pc.k < |r.sectors| {
      PosAt(r, pc.k);
    }
  }

  lemma {:induction false} KeepLock(reqs: seq<Request>, s: State, t: nat, x: int)
    requires Shaped(reqs, s) && LockOk(reqs, s, x) && t < |reqs| && Enabled(reqs, s, t)
    requires Shaped(reqs, After(reqs, s, t))
    ensures LockOk(reqs, After(reqs, s, t), x)
  {
    var s' := After(reqs, s, t);
    LockAfter(reqs, s, t, x);
    if x in s'.locked && x in s.locked {
      var u :| 0 <= u < |reqs| && Holds(reqs[u], s.pcs[u], x);
      assert Holds(reqs[u], s'.pcs[u], x);
    }
  }

  lemma {:induction false} KeepLocks(reqs: seq<Request>, s: State, t: nat)
    requires Shaped(reqs, s) && LocksOk(reqs, s) && t < |reqs| && Enabled(reqs, s, t)
    requires Shaped(reqs, After(reqs, s, t))
    ensures LocksOk(reqs, After(reqs, s, t))
  {
    forall x
      ensures LockOk(reqs, After(reqs, s, t), x)
    {
      KeepLock(reqs, s, t, x);
    }
  }

  lemma {:induction false} KeepOrder(reqs: seq<Request>, s: State, t: nat)
    requires Shaped(reqs, s) && LogOk(reqs, s) && ArrayOk(reqs, s) && LocksOk(reqs, s) && OrderOk(reqs, s)
    requires t < |reqs| && Enabled(reqs, s, t)
    requires Shaped(reqs, After(reqs, s, t)) && LogOk(reqs, After(reqs, s, t)) && s.log <= After(reqs, s, t).log
    ensures OrderOk(reqs, After(reqs, s, t))
  {
    var s' := After(reqs, s, t);
    forall p, q, x | 0 <= p < q < |s'.log| && Acquired(reqs[s'.log[q]], s'.pcs[s'.log[q]], x) && x in reqs[s'.log[p]].sectors
      ensures Released(reqs[s'.log[p]], s'.pcs[s'.log[p]], x)
    {
      HoldsAfter(reqs, s, t, x);
      var a, b := s'.log[p], s'.log[q];
      if Acquired(reqs[b], s.pcs[b], x) {
        assert q < |s.log| && s.log[q] == b && s.log[p] == a;
        assert Released(reqs[a], s.pcs[a], x);
      } else {
        assert b == t && s.pcs[t].Locking?;
        assert !s.pcs[a].Locking? && s.pcs[a] != Start;
        assert LockOk(reqs, s, x);
        assert Acquired(reqs[a], s.pcs[a], x) && !Holds(reqs[a], s.pcs[a], x);
      }
    }
  }

  // ---- Values ----

  /** A request running alone leaves its data in its sectors. */
  lemma {:induction false} AloneAt(d: Platter, r: Request, k: nat, x: int)
    requires Proper(r) && k <= |r.sectors| && IsSector(x)
    ensures Alone(d, r, k)[x] == if r.Write? && 0 <= Pos(r, x) < k then r.data[Pos(r, x)] else d[x]
  {
    if k > 0 && r.Write? {
      AloneAt(d, r, k - 1, x);
      PosAt(r, k - 1);
    }
  }

  /** Request at place p has the sector: all earlier requests on it are through with it. */
  lemma {:induction false} EarlierDone(reqs: seq<Request>, init: Platter, s: State, p: nat, n: nat, x: int)
    requires Shaped(reqs, s) && LogOk(reqs, s) && OrderOk(reqs, s) && n <= p < |s.log| && IsSector(x)
    requires Acquired(reqs[s.log[p]], s.pcs[s.log[p]], x)
    ensures Current(reqs, init, s, n, x) == Serial(reqs, init, s.log, n)[x]
  {
    if n > 0 {
      EarlierDone(reqs, init, s, p, n - 1, x);
      var t := s.log[n - 1];
      AloneAt(Serial(reqs, init, s.log, n - 1), reqs[t], |reqs[t].sectors|, x);
      assert x in reqs[t].sectors ==> Released(reqs[t], s.pcs[t], x);
    }
  }

  /** It has not released the sector: no later request has touched it. */
  lemma {:induction false} LaterNotYet(reqs: seq<Request>, init: Platter, s: State, p: nat, n: nat, x: int)
    requires Shaped(reqs, s) && LogOk(reqs, s) && OrderOk(reqs, s) && p < n <= |s.log| && IsSector(x)
    requires x in reqs[s.log[p]].sectors && !Released(reqs[s.log[p]], s.pcs[s.log[p]], x)
    ensures Current(reqs, init, s, n, x) == Current(reqs, init, s, p + 1, x)
  {
    if n > p + 1 {
      LaterNotYet(reqs, init, s, p, n - 1, x);
      var t := s.log[n - 1];
      assert !Acquired(reqs[t], s.pcs[t], x);
    }
  }

  /** A step that transfers nothing to sector x leaves the count of transfers to it as it was. */
  lemma {:induction false} CurrentSame(reqs: seq<Request>, init: Platter, s: State, s': State, n: nat, x: int)
    requires Shaped(reqs, s) && LogOk(reqs, s) && Shaped(reqs, s') && LogOk(reqs, s')
    requires s.log <= s'.log && n <= |s.log| && IsSector(x)
    requires forall p :: 0 <= p < n && reqs[s.log[p]].Write? ==>
               (Moved(reqs[s.log[p]], s'.pcs[s.log[p]], x) <==> Moved(reqs[s.log[p]], s.pcs[s.log[p]], x))
    ensures Current(reqs, init, s', n, x) == Current(reqs, init, s, n, x)
  {
    if n > 0 {
      CurrentSame(reqs, init, s, s', n - 1, x);
    }
  }

  lemma {:induction false} KeepDiskAt(reqs: seq<Request>, init: Platter, s: State, t: nat, x: int)
    requires Shaped(reqs, s) && LogOk(reqs, s) && DiskOk(reqs, init, s) && t < |reqs| && Enabled(reqs, s, t)
    requires var s' := After(reqs, s, t);
             Shaped(reqs, s') && LogOk(reqs, s') && OrderOk(reqs, s') && s.log <= s'.log && (s.pcs[t] != Start ==> s'.log == s.log)
    requires IsSector(x)
    ensures After(reqs, s, t).disk[x] == Current(reqs, init, After(reqs, s, t), |After(reqs, s, t).log|, x)
  {
    var s' := After(reqs, s, t);
    var r, pc := reqs[t], s.pcs[t];
    HoldsAfter(reqs, s, t, x);
    if pc.Moving? && r.Write? && x == r.sectors[pc.k] {
      PosAt(r, pc.k);
      var p :| 0 <= p < |s.log| && s.log[p] == t;
      LaterNotYet(reqs, init, s', p, |s'.log|, x);
    } else {
      CurrentSame(reqs, init, s, s', |s.log|, x);
    }
  }

  lemma {:induction false} SerialPrefix(reqs: seq<Request>, init: Platter, log: seq<nat>, log': seq<nat>, n: nat)
    requires forall t :: 0 <= t < |reqs| ==> Proper(reqs[t])
    requires n <= |log| && log <= log' && forall p :: 0 <= p < |log'| ==> log'[p] < |reqs|
    ensures Serial(reqs, init, log, n) == Serial(reqs, init, log', n)
  {
    if n > 0 {
      SerialPrefix(reqs, init, log, log', n - 1);
    }
  }

  /** The transfer of a read fetches the serial value. */
  lemma {:induction false} FetchIsSerial(reqs: seq<Request>, init: Platter, s: State, p: nat)
    requires Shaped(reqs, s) && LogOk(reqs, s) && OrderOk(reqs, s) && DiskOk(reqs, init, s) && p < |s.log|
    requires var r, pc := reqs[s.log[p]], s.pcs[s.log[p]]; r.Read? && pc.Moving? && pc.k < |r.sectors|
    ensures var x := reqs[s.log[p]].sectors[s.pcs[s.log[p]].k];
            IsSector(x) && s.disk[x] == Serial(reqs, init, s.log, p)[x]
  {
    var r, k := reqs[s.log[p]], s.pcs[s.log[p]].k;
    var x := r.sectors[k];
    assert IsSector(x);
    PosAt(r, k);
    LaterNotYet(reqs, init, s, p, |s.log|, x);
    EarlierDone(reqs, init, s, p, p, x);
  }

  lemma {:induction false} KeepFetched(reqs: seq<Request>, init: Platter, s: State, t: nat, p: nat, k: nat)
    requires Inv(reqs, init, s) && t < |reqs| && Enabled(reqs, s, t)
    requires var s' := After(reqs, s, t);
             Shaped(reqs, s') && LogOk(reqs, s') && s.log <= s'.log && (s.pcs[t] != Start ==> s'.log == s.log)
    requires var s' := After(reqs, s, t);
             p < |s'.log| && reqs[s'.log[p]].Read? && k < MovedCount(s'.pcs[s'.log[p]])
             && |s'.bufs[s'.log[p]]| == MovedCount(s'.pcs[s'.log[p]])
    ensures Fetched(reqs, init, After(reqs, s, t), p, k)
  {
    var s' := After(reqs, s, t);
    var u := s'.log[p];
    assert p < |s.log|;
    SerialPrefix(reqs, init, s.log, s'.log, p);
    if k < MovedCount(s.pcs[u]) {
      assert Fetched(reqs, init, s, p, k);
    } else {
      FetchIsSerial(reqs, init, s, p);
    }
  }

  lemma {:induction false} KeepBufs(reqs: seq<Request>, init: Platter, s: State, t: nat)
    requires Inv(reqs, init, s) && t < |reqs| && Enabled(reqs, s, t)
    requires var s' := After(reqs, s, t);
             Shaped(reqs, s') && LogOk(reqs, s') && s.log <= s'.log && (s.pcs[t] != Start ==> s'.log == s.log)
    ensures BufsOk(reqs, init, After(reqs, s, t))
  {
    var s' := After(reqs, s, t);
    assert forall u :: 0 <= u < |reqs| && reqs[u].Read? ==> |s'.bufs[u]| == MovedCount(s'.pcs[u]);
    forall p, k | 0 <= p < |s'.log| && reqs[s'.log[p]].Read? && 0 <= k < MovedCount(s'.pcs[s'.log[p]])
      ensures Fetched(reqs, init, s', p, k)
    {
      KeepFetched(reqs, init, s, t, p, k);
    }
  }

  lemma {:induction false} StepKeepsInv(reqs: seq<Request>, init: Platter, s: State, t: nat)
    requires Inv(reqs, init, s) && t < |reqs| && Enabled(reqs, s, t)
    ensures Inv(reqs, init, After(reqs, s, t))
  {
    var s' := After(reqs, s, t);
    KeepLog(reqs, s, t);
    KeepArray(reqs, s, t);
    KeepLocks(reqs, s, t);
    KeepOrder(reqs, s, t);
    KeepBufs(reqs, init, s, t);
    forall x | IsSector(x)
      ensures s'.disk[x] == Current(reqs, init, s', |s'.log|, x)
    {
      KeepDiskAt(reqs, init, s, t, x);
    }
  }

  // ---- Whole runs ----

  /** Taking steps in the order of a schedule leads from s to e. */
  ghost predicate Runs(reqs: seq<Request>, s: State, schedule: seq<nat>, e: State)
    decreases |schedule|
  {
    if schedule == [] then e == s
    else
      && Shaped(reqs, s) && schedule[0] < |reqs| && Enabled(reqs, s, schedule[0])
      && Runs(reqs, After(reqs, s, schedule[0]), schedule[1..], e)
  }

  lemma {:induction false} RunKeepsInv(reqs: seq<Request>, init: Platter, s: State, schedule: seq<nat>, e: State)
    requires Inv(reqs, init, s) && Runs(reqs, s, schedule, e)
    ensures Inv(reqs, init, e)
    decreases |schedule|
  {
    if schedule != [] {
      StepKeepsInv(reqs, init, s, schedule[0]);
      RunKeepsInv(reqs, init, After(reqs, s, schedule[0]), schedule[1..], e);
    }
  }

  lemma {:induction false} InitInv(reqs: seq<Request>, init: Platter, s: State)
    requires Init(reqs, init, s) && forall t :: 0 <= t < |reqs| ==> Proper(reqs[t])
    ensures Inv(reqs, init, s)
  {
    forall x
      ensures LockOk(reqs, s, x)
    {
    }
  }

  ghost predicate AllFinished(reqs: seq<Request>, s: State)
    requires |s.pcs| == |reqs|
  {
    forall t :: 0 <= t < |reqs| ==> Finished(reqs[t], s.pcs[t])
  }

  /** What request t, logged at place p, is to return: the contents of its sectors after the
      requests before it. */
  ghost function SerialRead(reqs: seq<Request>, init: Platter, log: seq<nat>, p: nat, r: Request): seq<Sector>
    requires forall t :: 0 <= t < |reqs| ==> Proper(reqs[t])
    requires p <= |log| && (forall q :: 0 <= q < |log| ==> log[q] < |reqs|) && Proper(r)
  {
    seq(|r.sectors|, k requires 0 <= k < |r.sectors| =>
      assert IsSector(r.sectors[k]); Serial(reqs, init, log, p)[r.sectors[k]])
  }

  lemma {:induction false} CurrentIsSerial(reqs: seq<Request>, init: Platter, s: State, n: nat, x: int)
    requires Shaped(reqs, s) && LogOk(reqs, s) && AllFinished(reqs, s) && n <= |s.log| && IsSector(x)
    ensures Current(reqs, init, s, n, x) == Serial(reqs, init, s.log, n)[x]
  {
    if n > 0 {
      CurrentIsSerial(reqs, init, s, n - 1, x);
      var t := s.log[n - 1];
      AloneAt(Serial(reqs, init, s.log, n - 1), reqs[t], |reqs[t].sectors|, x);
    }
  }

  /** Serialisability: whatever the interleaving, once all requests have finished, each has run
      exactly once in the log, the disk is what running them one at a time in the order of the log
      leaves, and every read has returned what it would have returned in that serial run. */
  lemma {:induction false} Serialisable(reqs: seq<Request>, init: Platter, s: State, schedule: seq<nat>, e: State)
    requires Init(reqs, init, s) && (forall t :: 0 <= t < |reqs| ==> Proper(reqs[t]))
    requires Runs(reqs, s, schedule, e) && |e.pcs| == |reqs| && AllFinished(reqs, e)
    ensures Shaped(reqs, e) && LogOk(reqs, e)
    ensures forall t :: 0 <= t < |reqs| ==> t in e.log
    ensures e.disk == Serial(reqs, init, e.log, |e.log|)
    ensures forall p :: 0 <= p < |e.log| && reqs[e.log[p]].Read? ==>
              e.bufs[e.log[p]] == SerialRead(reqs, init, e.log, p, reqs[e.log[p]])
  {
    InitInv(reqs, init, s);
    RunKeepsInv(reqs, init, s, schedule, e);
    forall x | 0 <= x < NUM_SECTORS
      ensures e.disk[x] == Serial(reqs, init, e.log, |e.log|)[x]
    {
      assert IsSector(x);
      CurrentIsSerial(reqs, init, e, |e.log|, x);
    }
    forall p | 0 <= p < |e.log| && reqs[e.log[p]].Read?
      ensures e.bufs[e.log[p]] == SerialRead(reqs, init, e.log, p, reqs[e.log[p]])
    {
      forall k | 0 <= k < |reqs[e.log[p]].sectors|
        ensures e.bufs[e.log[p]][k] == SerialRead(reqs, init, e.log, p, reqs[e.log[p]])[k]
      {
        assert Fetched(reqs, init, e, p, k);
      }
    }
  }

  // ---- Progress ----

  /** While some request is unfinished, some request can take a step. */
  lemma {:induction false} NoDeadlock(reqs: seq<Request>, init: Platter, s: State) returns (t: nat)
    requires Inv(reqs, init, s) && !AllFinished(reqs, s)
    ensures t < |reqs| && Enabled(reqs, s, t)
  {
    t :| t < |reqs| && !Finished(reqs[t], s.pcs[t]);
    if !Enabled(reqs, s, t) {
      var h := if s.pcs[t].Start? then s.log[|s.log| - 1] else t;
      assert s.pcs[h].Locking?;
      if Enabled(reqs, s, h) {
        t := h;
      } else {
        var x := reqs[h].sectors[s.pcs[h].k];
        PosAt(reqs[h], s.pcs[h].k);
        assert LockOk(reqs, s, x);
        var u :| 0 <= u < |reqs| && Holds(reqs[u], s.pcs[u], x);
        t := u;
      }
    }
  }

  /** The steps a request has left. */
  function StepsLeft(r: Request, pc: Pc): nat
    requires InRange(r, pc)
  {
    var n := |r.sectors|;
    match pc
    case Start => 3 * n + 2
    case Locking(k) => 3 * n + 1 - k
    case Moving(k) => 2 * (n - k)
    case Unlocking(k) => 2 * (n - k) - 1
  }

  ghost function TotalLeft(reqs: seq<Request>, pcs: seq<Pc>): nat
    requires |pcs| == |reqs| && forall t :: 0 <= t < |reqs| ==> InRange(reqs[t], pcs[t])
    decreases |reqs|
  {
    if reqs == [] then 0
    else
      var n := |reqs| - 1;
      TotalLeft(reqs[..n], pcs[..n]) + StepsLeft(reqs[n], pcs[n])
  }

  lemma {:induction false} TotalUpdate(reqs: seq<Request>, pcs: seq<Pc>, t: nat, pc: Pc)
    requires |pcs| == |reqs| && (forall u :: 0 <= u < |reqs| ==> InRange(reqs[u], pcs[u]))
    requires t < |reqs| && InRange(reqs[t], pc)
    ensures TotalLeft(reqs, pcs[t := pc]) == TotalLeft(reqs, pcs) - StepsLeft(reqs[t], pcs[t]) + StepsLeft(reqs[t], pc)
    decreases |reqs|
  {
    var n := |reqs| - 1;
    if t < n {
      TotalUpdate(reqs[..n], pcs[..n], t, pc);
      assert pcs[t := pc][..n] == pcs[..n][t := pc];
    } else {
      assert pcs[t := pc][..n] == pcs[..n];
    }
  }

  /** Every step uses up one of the steps left, so a run makes at most that many steps; with
      NoDeadlock, every run that goes on as long as it can finishes all requests. */
  lemma {:induction false} RunLength(reqs: seq<Request>, s: State, schedule: seq<nat>, e: State)
    requires Shaped(reqs, s) && Runs(reqs, s, schedule, e)
    ensures Shaped(reqs, e) && TotalLeft(reqs, e.pcs) + |schedule| == TotalLeft(reqs, s.pcs)
    decreases |schedule|
  {
    if schedule != [] {
      var t := schedule[0];
      var s' := After(reqs, s, t);
      TotalUpdate(reqs, s.pcs, t, s'.pcs[t]);
      assert s'.pcs == s.pcs[t := s'.pcs[t]];
      RunLength(reqs, s', schedule[1..], e);
    }
  }
}
