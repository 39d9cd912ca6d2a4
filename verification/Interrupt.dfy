/** Simulated time and pending interrupts: machine/interrupt.cc. */
module Interrupts {
  import opened Lists

  datatype Kind = TimerInt | DiskInt | ConsoleWriteInt | ConsoleReadInt | ElevatorInt | NetworkSendInt | NetworkRecvInt

  datatype Event = Event(kind: Kind, handler: int, arg: int)

  datatype Level = IntOff | IntOn

  datatype Status = IdleMode | SystemMode | UserMode

  /** What a device's handler asks for when its interrupt fires at some time: further interrupts, so
      many ticks from then, and perhaps that the interrupted thread yield. */
  datatype Reply = Reply(asked: seq<(Event, int)>, toYield: bool)

  type Handlers = (Event, nat) -> Reply

  /** ASSERT(fromNow > 0) in Schedule holds for everything the handlers ask for. */
  ghost predicate Later(handlers: Handlers) {
    forall e, t, i :: 0 <= i < |handlers(e, t).asked| ==> handlers(e, t).asked[i].1 > 0
  }

  type Pending = seq<Cell<Event>>

  /** The pending list after scheduling several interrupts. */
  function Scheduled(p: Pending, now: nat, asked: seq<(Event, int)>): Pending
    decreases |asked|
  {
    if asked == [] then p else Scheduled(Inserted(p, Cell(asked[0].0, now + asked[0].1)), now, asked[1..])
  }

  /** How many pending interrupts are due. */
  function DueCount(p: Pending, now: int): nat {
    if p == [] then 0 else (if p[0].key <= now then 1 else 0) + DueCount(p[1..], now)
  }

  lemma {:induction false} InsertedKeys(p: Pending, x: Cell<Event>, now: int)
    ensures forall y :: y in Inserted(p, x) <==> y == x || y in p
    ensures DueCount(Inserted(p, x), now) == DueCount(p, now) + if x.key <= now then 1 else 0
  {
    if p != [] && x.key >= p[0].key {
      InsertedKeys(p[1..], x, now);
      assert Inserted(p, x)[1..] == Inserted(p[1..], x);
      assert p == [p[0]] + p[1..];
    } else {
      assert Inserted(p, x)[1..] == p;
    }
  }

  /** The interrupts that a handler asks for at some time. */
  ghost function Wanted(asked: seq<(Event, int)>, now: nat): multiset<Cell<Event>> {
    if asked == [] then multiset{} else multiset{Cell(asked[0].0, now + asked[0].1)} + Wanted(asked[1..], now)
  }

  /** Scheduling keeps the list sorted, adds what is asked for and nothing else, and makes nothing due. */
  lemma {:induction false} ScheduledMeaning(p: Pending, now: nat, asked: seq<(Event, int)>)
    requires forall i :: 0 <= i < |asked| ==> asked[i].1 > 0
    ensures Sorted(p) ==> Sorted(Scheduled(p, now, asked))
    ensures multiset(Scheduled(p, now, asked)) == multiset(p) + Wanted(asked, now)
    ensures forall y :: y in Scheduled(p, now, asked) ==> y in p || y.key > now
    ensures DueCount(Scheduled(p, now, asked), now) == DueCount(p, now)
    decreases |asked|
  {
    if asked != [] {
      var x := Cell(asked[0].0, now + asked[0].1);
      InsertedMeaning(p, x);
      InsertedKeys(p, x, now);
      ScheduledMeaning(Inserted(p, x), now, asked[1..]);
    }
  }

  lemma {:induction false} NoneDue(p: Pending, now: int)
    ensures DueCount(p, now) == 0 <==> forall y :: y in p ==> y.key > now
  {
    if p != [] {
      NoneDue(p[1..], now);
      assert p == [p[0]] + p[1..];
    }
  }

  lemma HeadLeast(p: Pending)
    requires Sorted(p) && p != []
    ensures Sorted(p[1..]) && forall y :: y in p[1..] ==> p[0].key <= y.key
  {
  }

  /** An interrupt that fired: when it was due, and when it fired. */
  datatype Firing = Firing(event: Event, due: int, at: nat)

  /** The handler of some interrupt that fired from the i-th on asked for a yield. */
  ghost predicate AskedToYield(fired: seq<Firing>, i: nat, handlers: Handlers) {
    exists k :: i <= k < |fired| && handlers(fired[k].event, fired[k].at).toYield
  }

  lemma {:induction false} AskedOnceMore(fired: seq<Firing>, i: nat, f: Firing, handlers: Handlers)
    requires i <= |fired|
    ensures AskedToYield(fired + [f], i, handlers) <==> AskedToYield(fired, i, handlers) || handlers(f.event, f.at).toYield
  {
    var all := fired + [f];
    assert forall k :: 0 <= k < |fired| ==> all[k] == fired[k];
    assert all[|fired|] == f;
  }

  /** What fired last, and so whatever fired, was due no later than this. */
  ghost predicate LastDue(fired: seq<Firing>, when: int) { fired != [] ==> fired[|fired| - 1].due <= when }

  /** Interrupts fire never early and in nondecreasing due time; and whatever is still pending is due no
      earlier than anything that has fired. */
  ghost predicate InDueTime(fired: seq<Firing>, pending: Pending, now: nat) {
    && (forall f :: f in fired ==> f.due <= f.at <= now)
    && (forall i, j :: 0 <= i < j < |fired| ==> fired[i].due <= fired[j].due)
    && forall y :: y in pending ==> LastDue(fired, y.key)
  }

  lemma TimePasses(fired: seq<Firing>, pending: Pending, now: nat, later: nat)
    requires InDueTime(fired, pending, now) && now <= later
    ensures InDueTime(fired, pending, later)
  {
  }

  lemma FiredInTime(fired: seq<Firing>, pending: Pending, now: nat, f: Firing)
    requires InDueTime(fired, pending, now) && LastDue(fired, f.due) && f.due <= f.at <= now
    requires forall y :: y in pending ==> f.due <= y.key
    ensures InDueTime(fired + [f], pending, now)
  {
    var all := fired + [f];
    forall i, j | 0 <= i < j < |all|
      ensures all[i].due <= all[j].due
    {
      assert j == |fired| ==> fired[i].due <= fired[|fired| - 1].due;
    }
  }

  // ---- What becomes of pending interrupts ----

  /** What the handlers of these firings asked for. */
  ghost function AskedBy(fired: seq<Firing>, handlers: Handlers): multiset<Cell<Event>> {
    if fired == [] then multiset{}
    else
      var n, f := |fired| - 1, fired[|fired| - 1];
      AskedBy(fired[..n], handlers) + Wanted(handlers(f.event, f.at).asked, f.at)
  }

  /** The interrupts that fired, as they were pending. */
  ghost function Taken(fired: seq<Firing>): multiset<Cell<Event>> {
    if fired == [] then multiset{}
    else
      var n, f := |fired| - 1, fired[|fired| - 1];
      Taken(fired[..n]) + multiset{Cell(f.event, f.due)}
  }

  /** Nothing is lost and nothing made up: what was pending, and what handlers asked for, is pending still
      or has fired. */
  ghost predicate Conserved(p: Pending, q: Pending, fired: seq<Firing>, handlers: Handlers) {
    multiset(p) + AskedBy(fired, handlers) == multiset(q) + Taken(fired)
  }

  lemma {:induction false} InTurn(a: seq<Firing>, b: seq<Firing>, handlers: Handlers)
    ensures AskedBy(a + b, handlers) == AskedBy(a, handlers) + AskedBy(b, handlers) && Taken(a + b) == Taken(a) + Taken(b)
  {
    if b == [] {
      assert a + b == a;
    } else {
      var n := |b| - 1;
      assert (a + b)[..|a + b| - 1] == a + b[..n];
      InTurn(a, b[..n], handlers);
    }
  }

  lemma {:induction false} ConservedOn(p: Pending, q: Pending, r: Pending, a: seq<Firing>, b: seq<Firing>, handlers: Handlers)
    requires Conserved(p, q, a, handlers) && Conserved(q, r, b, handlers)
    ensures Conserved(p, r, a + b, handlers)
  {
    InTurn(a, b, handlers);
    AddUp(multiset(p), multiset(q), multiset(r), AskedBy(a, handlers), AskedBy(b, handlers), Taken(a), Taken(b));
  }

  lemma {:induction false} AddUp<T>(p: multiset<T>, q: multiset<T>, r: multiset<T>, a: multiset<T>, b: multiset<T>, t: multiset<T>, u: multiset<T>)
    requires p + a == q + t && q + b == r + u
    ensures p + (a + b) == r + (t + u)
  {
    calc {
      p + (a + b);
      (p + a) + b;
      (q + t) + b;
      (q + b) + t;
      (r + u) + t;
      r + (t + u);
    }
  }

  lemma OneFiring(f: Firing, handlers: Handlers)
    ensures AskedBy([f], handlers) == Wanted(handlers(f.event, f.at).asked, f.at) && Taken([f]) == multiset{Cell(f.event, f.due)}
  {
    assert [f][..0] == [];
  }

  /** One call of CheckIfDue. */
  lemma {:induction false} CheckedConserves(p: Pending, q: Pending, now: nat, did: bool, handlers: Handlers)
    requires Later(handlers)
    requires did ==> p != [] && q == Scheduled(p[1..], now, handlers(p[0].item, now).asked)
    requires !did && p != [] ==> q == Inserted(p[1..], p[0])
    requires !did && p == [] ==> q == []
    ensures Conserved(p, q, if did then [Firing(p[0].item, p[0].key, now)] else [], handlers)
  {
    if p != [] {
      assert p == [p[0]] + p[1..];
      if did {
        OneFiring(Firing(p[0].item, p[0].key, now), handlers);
        ScheduledMeaning(p[1..], now, handlers(p[0].item, now).asked);
      } else {
        InsertedMeaning(p[1..], p[0]);
        assert multiset(p) == multiset(q);
      }
    }
  }

  lemma {:induction false} WantedLater(asked: seq<(Event, int)>, now: nat, y: Cell<Event>)
    requires (forall i :: 0 <= i < |asked| ==> asked[i].1 > 0) && y.key <= now
    ensures y !in Wanted(asked, now)
  {
    if asked != [] {
      WantedLater(asked[1..], now, y);
    }
  }

  lemma {:induction false} AskedLater(fired: seq<Firing>, handlers: Handlers, now: nat, y: Cell<Event>)
    requires Later(handlers) && AllAt(fired, now)
    ensures y.key <= now ==> y !in AskedBy(fired, handlers)
    ensures y in Taken(fired) <==> Firing(y.item, y.key, now) in fired
  {
    if fired != [] {
      var n := |fired| - 1;
      AskedLater(fired[..n], handlers, now, y);
      assert fired == fired[..n] + [fired[n]];
      if y.key <= now {
        WantedLater(handlers(fired[n].event, now).asked, now, y);
      }
    }
  }

  /** What conservation means for the firings of one moment: interrupts that are not due yet stay, and
      those that the handlers asked for join them; and of those that are due, the ones no longer pending
      have fired, each as often as it was pending. */
  lemma {:induction false} ConservedMeaning(p: Pending, q: Pending, fired: seq<Firing>, handlers: Handlers, now: nat, y: Cell<Event>)
    requires Later(handlers) && AllAt(fired, now) && Conserved(p, q, fired, handlers)
    ensures y.key > now ==> multiset(q)[y] == multiset(p)[y] + AskedBy(fired, handlers)[y]
    ensures y.key <= now ==> multiset(p)[y] == multiset(q)[y] + Taken(fired)[y]
    ensures y.key <= now && y in p && y !in q ==> Firing(y.item, y.key, now) in fired
    ensures Firing(y.item, y.key, now) in fired ==> y in p
  {
    AskedLater(fired, handlers, now, y);
    assert (multiset(p) + AskedBy(fired, handlers))[y] == (multiset(q) + Taken(fired))[y];
  }

  /** From one moment to the next at the same time: the list went from p to q, and the log from f to g. */
  ghost predicate Handled(p: Pending, q: Pending, f: seq<Firing>, g: seq<Firing>, handlers: Handlers, now: nat) {
    f <= g && Conserved(p, q, g[|f|..], handlers) && AllAt(g[|f|..], now)
  }

  /** They fired at this time, and not early. */
  ghost predicate AllAt(fired: seq<Firing>, now: nat) { forall f :: f in fired ==> f.due <= f.at == now }

  lemma {:induction false} HandledOn(p: Pending, q: Pending, r: Pending, f: seq<Firing>, g: seq<Firing>, h: seq<Firing>, handlers: Handlers,
                                     now: nat)
    requires Handled(p, q, f, g, handlers, now) && Handled(q, r, g, h, handlers, now)
    ensures Handled(p, r, f, h, handlers, now)
  {
    var a, b := g[|f|..], h[|g|..];
    assert h[|f|..] == a + b by { Slices(f, g, h); }
    assert AllAt(a + b, now);
    ConservedOn(p, q, r, a, b, handlers);
  }

  lemma Slices(f: seq<Firing>, g: seq<Firing>, h: seq<Firing>)
    requires f <= g <= h
    ensures h[|f|..] == g[|f|..] + h[|g|..]
  {
  }

  lemma {:induction false} NothingHandled(p: Pending, f: seq<Firing>, handlers: Handlers, now: nat)
    ensures Handled(p, p, f, f, handlers, now)
  {
    assert f[|f|..] == [];
  }

  lemma {:induction false} CheckedHandles(p: Pending, q: Pending, f: seq<Firing>, g: seq<Firing>, handlers: Handlers, now: nat, did: bool)
    requires Later(handlers)
    requires did ==> p != [] && p[0].key <= now && q == Scheduled(p[1..], now, handlers(p[0].item, now).asked)
    requires did ==> g == f + [Firing(p[0].item, p[0].key, now)]
    requires !did ==> g == f && (if p == [] then q == [] else q == Inserted(p[1..], p[0]))
    ensures Handled(p, q, f, g, handlers, now)
  {
    CheckedConserves(p, q, now, did, handlers);
    assert g[|f|..] == if did then [Firing(p[0].item, p[0].key, now)] else [];
  }

  class Interrupt {
    var pending: Pending
    var level: Level
    var status: Status
    var inHandler: bool
    var yieldOnReturn: bool
    var totalTicks: nat
    var idleTicks: nat
    var systemTicks: nat
    var userTicks: nat
    ghost var fired: seq<Firing>  // the interrupts so far

    /** The list is in order, and time adds up. */
    ghost predicate Valid()
      reads this
    {
      Sorted(pending) && totalTicks == idleTicks + systemTicks + userTicks && InDueTime(fired, pending, totalTicks)
    }

    constructor ()
      ensures Valid() && pending == [] && totalTicks == 0 && level == IntOff && status == SystemMode && !inHandler && !yieldOnReturn
    {
      pending, level, status, inHandler, yieldOnReturn := [], IntOff, SystemMode, false, false;
      totalTicks, idleTicks, systemTicks, userTicks := 0, 0, 0, 0;
      fired := [];
    }

    /** Schedule, which insists on a time in the future. */
    method Schedule(e: Event, fromNow: int)
      requires Valid() && fromNow > 0
      modifies this`pending
      ensures Valid() && pending == Inserted(old(pending), Cell(e, totalTicks + fromNow))
    {
      var x := Cell(e, totalTicks + fromNow);
      InsertedMeaning(pending, x);
      InsertedKeys(pending, x, totalTicks);
      pending := Inserted(pending, x);
    }

    /** The handler of an interrupt that fires. */
    method Handle(e: Event, handlers: Handlers)
      requires Valid() && Later(handlers) && inHandler
      modifies this`pending, this`yieldOnReturn
      ensures Valid() && pending == Scheduled(old(pending), totalTicks, handlers(e, totalTicks).asked)
      ensures yieldOnReturn == (old(yieldOnReturn) || handlers(e, totalTicks).toYield)
    {
      if handlers(e, totalTicks).toYield {
        YieldOnReturn();
      }
      ScheduleAll(handlers(e, totalTicks).asked);
    }

    /** What the handlers do is to schedule interrupts, one after the other. */
    method ScheduleAll(asked: seq<(Event, int)>)
      requires Valid() && forall i :: 0 <= i < |asked| ==> asked[i].1 > 0
      modifies this`pending
      ensures Valid() && pending == Scheduled(old(pending), totalTicks, asked)
    {
      for i := 0 to |asked|
        invariant Valid()
        invariant Scheduled(pending, totalTicks, asked[i..]) == Scheduled(old(pending), totalTicks, asked)
      {
        assert asked[i..][1..] == asked[i + 1..];
        Schedule(asked[i].0, asked[i].1);
      }
    }

    /** A handler asks that the interrupted thread yield once the handlers are done. */
    method YieldOnReturn()
      requires inHandler
      modifies this`yieldOnReturn
      ensures yieldOnReturn
    {
      yieldOnReturn := true;
    }

    /** Only the time-slice timer is left and the machine is idle: CheckIfDue will not fire it. */
    predicate OnlyTimerLeft()
      reads this
    {
      status == IdleMode && |pending| == 1 && pending[0].item.kind == TimerInt
    }

    /** CheckIfDue: fire the next interrupt if it is due, or, when the clock may be advanced, whenever
        it is due. */
    method CheckIfDue(advanceClock: bool, handlers: Handlers) returns (did: bool)
      requires Valid() && level == IntOff && Later(handlers)
      modifies this
      ensures Valid() && level == IntOff && status == old(status) && systemTicks == old(systemTicks) && userTicks == old(userTicks)
      ensures did <==> old(pending) != [] && (advanceClock || old(pending)[0].key <= old(totalTicks)) && !old(OnlyTimerLeft())
      ensures totalTicks == if advanceClock && old(pending) != [] && old(pending)[0].key > old(totalTicks)
                            then old(pending)[0].key else old(totalTicks)
      ensures did ==> fired == old(fired) + [Firing(old(pending)[0].item, old(pending)[0].key, totalTicks)] && !inHandler
      ensures did ==> pending == Scheduled(old(pending)[1..], totalTicks, handlers(old(pending)[0].item, totalTicks).asked)
      ensures did ==> yieldOnReturn == (old(yieldOnReturn) || handlers(old(pending)[0].item, totalTicks).toYield)
      ensures !did ==> inHandler == old(inHandler) && yieldOnReturn == old(yieldOnReturn)
      ensures !did ==> fired == old(fired) && (old(pending) == [] ==> pending == [])
      ensures !did && old(pending) != [] ==> pending == Inserted(old(pending)[1..], old(pending)[0])
    {
      if pending == [] {
        return false;
      }
      var toOccur, when := TakeFirst();
      if advanceClock && when > totalTicks {
        TimePasses(fired, pending, totalTicks, when);
        idleTicks := idleTicks + (when - totalTicks);
        totalTicks := when;
      } else if when > totalTicks {
        PutBack(toOccur, when);
        return false;
      }
      if status == IdleMode && toOccur.kind == TimerInt && pending == [] {
        PutBack(toOccur, when);
        return false;
      }
      Fire(toOccur, when, handlers);
      did := true;
    }

    method TakeFirst() returns (e: Event, when: int)
      requires Valid() && pending != []
      modifies this`pending
      ensures Valid() && Cell(e, when) == old(pending)[0] && pending == old(pending)[1..]
      ensures LastDue(fired, when) && (forall y :: y in pending ==> when <= y.key)
    {
      HeadLeast(pending);
      e, when := pending[0].item, pending[0].key;
      assert pending[0] in pending && forall y :: y in pending[1..] ==> y in pending;
      pending := pending[1..];
    }

    method PutBack(e: Event, when: int)
      requires Valid() && LastDue(fired, when)
      modifies this`pending
      ensures Valid() && pending == Inserted(old(pending), Cell(e, when))
    {
      InsertedMeaning(pending, Cell(e, when));
      InsertedKeys(pending, Cell(e, when), totalTicks);
      pending := Inserted(pending, Cell(e, when));
    }

    method Fire(e: Event, when: int, handlers: Handlers)
      requires Valid() && Later(handlers) && when <= totalTicks
      requires LastDue(fired, when) && (forall y :: y in pending ==> when <= y.key)
      modifies this`pending, this`fired, this`inHandler, this`yieldOnReturn
      ensures Valid() && fired == old(fired) + [Firing(e, when, totalTicks)] && !inHandler
      ensures pending == Scheduled(old(pending), totalTicks, handlers(e, totalTicks).asked)
      ensures yieldOnReturn == (old(yieldOnReturn) || handlers(e, totalTicks).toYield)
    {
      FiredInTime(fired, pending, totalTicks, Firing(e, when, totalTicks));
      fired := fired + [Firing(e, when, totalTicks)];
      inHandler := true;
      Handle(e, handlers);
      inHandler := false;
    }

    /** while (CheckIfDue(FALSE)): it ends, because handlers only ask for interrupts strictly later,
        and it leaves nothing due unless the machine is idle and only the timer is left. */
    method FireDue(handlers: Handlers)
      requires Valid() && level == IntOff && Later(handlers)
      modifies this
      ensures Valid() && level == IntOff && status == old(status) && totalTicks == old(totalTicks)
      ensures idleTicks == old(idleTicks) && systemTicks == old(systemTicks) && userTicks == old(userTicks)
      ensures old(fired) <= fired && (!old(inHandler) ==> !inHandler)
      ensures Handled(old(pending), pending, old(fired), fired, handlers, totalTicks)
      ensures yieldOnReturn <==> old(yieldOnReturn) || AskedToYield(fired, |old(fired)|, handlers)
      ensures OnlyTimerLeft() || forall y :: y in pending ==> y.key > totalTicks
    {
      NothingHandled(pending, fired, handlers, totalTicks);
      var more := true;
      while more
        invariant Valid() && level == IntOff && status == old(status) && totalTicks == old(totalTicks)
        invariant idleTicks == old(idleTicks) && systemTicks == old(systemTicks) && userTicks == old(userTicks)
        invariant old(fired) <= fired && (!old(inHandler) ==> !inHandler)
        invariant Handled(old(pending), pending, old(fired), fired, handlers, totalTicks)
        invariant yieldOnReturn <==> old(yieldOnReturn) || AskedToYield(fired, |old(fired)|, handlers)
        invariant !more ==> OnlyTimerLeft() || forall y :: y in pending ==> y.key > totalTicks
        decreases more, DueCount(pending, totalTicks)
      {
        ghost var p, f := pending, fired;
        more := CheckIfDue(false, handlers);
        CheckedOnce(p, pending, totalTicks, more, handlers);
        CheckedHandles(p, pending, f, fired, handlers, totalTicks, more);
        HandledOn(old(pending), p, pending, old(fired), f, fired, handlers, totalTicks);
        if more {
          AskedOnceMore(f, |old(fired)|, Firing(p[0].item, p[0].key, totalTicks), handlers);
        }
      }
    }

    method PassTime()
      requires Valid() && status != IdleMode
      modifies this`totalTicks, this`systemTicks, this`userTicks
      ensures Valid() && totalTicks == old(totalTicks) + if status == SystemMode then 10 else 1
      ensures systemTicks == old(systemTicks) + if status == SystemMode then 10 else 0
      ensures userTicks == old(userTicks) + if status == SystemMode then 0 else 1
    {
      if status == SystemMode {
        totalTicks := totalTicks + 10;
        systemTicks := systemTicks + 10;
      } else {
        totalTicks := totalTicks + 1;
        userTicks := userTicks + 1;
      }
      TimePasses(fired, pending, old(totalTicks), totalTicks);
    }

    /** OneTick: time passes in the current mode, and afterwards nothing is due.  The running thread is to
        yield, in the kernel's mode, exactly when that was asked for before or by a handler now; that
        other threads run then is not part of this. */
    method OneTick(handlers: Handlers) returns (toYield: bool)
      requires Valid() && status != IdleMode && Later(handlers)
      modifies this
      ensures Valid() && level == IntOn && status == old(status) && (!old(inHandler) ==> !inHandler)
      ensures toYield <==> old(yieldOnReturn) || AskedToYield(fired, |old(fired)|, handlers)
      ensures !yieldOnReturn
      ensures totalTicks == old(totalTicks) + if status == SystemMode then 10 else 1
      ensures status == SystemMode ==> systemTicks == old(systemTicks) + 10 && userTicks == old(userTicks)
      ensures status == UserMode ==> userTicks == old(userTicks) + 1 && systemTicks == old(systemTicks)
      ensures forall y :: y in pending ==> y.key > totalTicks
      ensures Handled(old(pending), pending, old(fired), fired, handlers, totalTicks)
    {
      PassTime();
      level := IntOff;
      FireDue(handlers);
      level := IntOn;
      toYield := yieldOnReturn;
      if yieldOnReturn {
        yieldOnReturn := false;
      }
    }

    /** SetLevel: enabling interrupts that were disabled, which handlers may not do, lets time pass. */
    method SetLevel(now: Level, handlers: Handlers) returns (before: Level, toYield: bool)
      requires Valid() && status != IdleMode && Later(handlers) && (now == IntOff || !inHandler)
      modifies this
      ensures toYield ==> now == IntOn && before == IntOff
      ensures now == IntOn && before == IntOff ==>
                (toYield <==> old(yieldOnReturn) || AskedToYield(fired, |old(fired)|, handlers)) && forall y :: y in pending ==> y.key > totalTicks
      ensures Valid() && level == now && before == old(level) && status == old(status)
      ensures totalTicks == old(totalTicks) + if now == IntOff || before == IntOn then 0 else if status == SystemMode then 10 else 1
      ensures Handled(old(pending), pending, old(fired), fired, handlers, totalTicks)
      ensures now == IntOff || before == IntOn ==> fired == old(fired) && pending == old(pending)
    {
      NothingHandled(pending, fired, handlers, totalTicks);
      before, toYield := level, false;
      level := now;
      if now == IntOn && before == IntOff {
        toYield := OneTick(handlers);
      }
    }

    /** The rest of what is due, once the machine is no longer idle. */
    method LeaveIdle(handlers: Handlers)
      requires Valid() && level == IntOff && Later(handlers)
      modifies this
      ensures Valid() && level == IntOff && status == SystemMode && !yieldOnReturn
      ensures totalTicks == old(totalTicks) && systemTicks == old(systemTicks) && userTicks == old(userTicks)
      ensures Handled(old(pending), pending, old(fired), fired, handlers, totalTicks)
      ensures (|pending| == 1 && pending[0].item.kind == TimerInt) || forall y :: y in pending ==> y.key > totalTicks
    {
      FireDue(handlers);
      yieldOnReturn := false;
      status := SystemMode;
    }

    /** Idle: the clock jumps to the next interrupt; the machine halts when there is none, or only the
        timer, in which case the clock has jumped all the same. */
    method Idle(handlers: Handlers) returns (halt: bool)
      requires Valid() && level == IntOff && Later(handlers)
      modifies this
      ensures Valid() && level == IntOff
      ensures totalTicks == if old(pending) != [] && old(pending)[0].key > old(totalTicks) then old(pending)[0].key else old(totalTicks)
      ensures systemTicks == old(systemTicks) && userTicks == old(userTicks)
      ensures Handled(old(pending), pending, old(fired), fired, handlers, totalTicks)
      ensures halt <==> old(pending) == [] || (|old(pending)| == 1 && old(pending)[0].item.kind == TimerInt)
      ensures !halt ==> status == SystemMode && !yieldOnReturn && |fired| > |old(fired)|
      ensures halt ==> fired == old(fired)
      ensures !halt ==> (|pending| == 1 && pending[0].item.kind == TimerInt) || forall y :: y in pending ==> y.key > totalTicks
    {
      status := IdleMode;
      ghost var p, f := pending, fired;
      var did := CheckIfDue(true, handlers);
      CheckedHandles(p, pending, f, fired, handlers, totalTicks, did);
      if did {
        ghost var q, g := pending, fired;
        LeaveIdle(handlers);
        HandledOn(p, q, pending, f, g, fired, handlers, totalTicks);
        return false;
      }
      halt := true;
    }
  }

  /** What one turn of the loop does to the number of interrupts due. */
  lemma {:induction false} CheckedOnce(p: Pending, q: Pending, now: nat, did: bool, handlers: Handlers)
    requires Sorted(p) && Later(handlers)
    requires did ==> p != [] && p[0].key <= now && q == Scheduled(p[1..], now, handlers(p[0].item, now).asked)
    requires !did && p != [] ==> q == Inserted(p[1..], p[0])
    requires !did && p == [] ==> q == []
    ensures did ==> DueCount(q, now) < DueCount(p, now)
    ensures !did && p != [] && p[0].key > now ==> forall y :: y in q ==> y.key > now
    ensures !did && |p| == 1 ==> q == p
  {
    if did {
      ScheduledMeaning(p[1..], now, handlers(p[0].item, now).asked);
    } else if p != [] {
      HeadLeast(p);
      InsertedKeys(p[1..], p[0], now);
    }
  }
}
