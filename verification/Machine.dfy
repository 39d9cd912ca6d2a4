/** machine/translate.cc, the page-fault handler of userprog/exception.cc and the restart loop of
    machine/mipssim.cc, for one user thread and the page-table mode. */
module Machines {
  import opened BitMaps
  import opened Codec
  import opened Paging

  datatype Exception = NoException | PageFaultException | ReadOnlyException | BusErrorException | AddressErrorException

  /** Every page in memory has been used since it was loaded, except perhaps page v. */
  ghost predicate SettledBut(m: Memory, v: int) {
    forall i :: 0 <= i < |m.table| && m.table[i].valid && m.table[i].virtualPage != v ==> m.table[i].use
  }

  /** Page v was used at `now`, and every other page earlier. */
  ghost predicate Latest(m: Memory, v: int, now: int)
    requires |m.last| == |m.table|
  {
    exists i :: Resident(m, v, i) && m.last[i] == now && forall j :: 0 <= j < |m.table| && j != i && m.table[j].use ==> m.last[j] < now
  }

  /** The memory after an access that hits slot i and leaves this page there. */
  function Hit(m: Memory, i: nat, writing: bool, now: int, page: Page): Memory
    requires i < |m.table| == |m.last| == |m.main|
  {
    Touched(m, i, writing, now).(main := m.main[i := page])
  }

  /** An access to a page in memory settles that page and changes only that page of the flat memory. */
  lemma {:induction false} HitMeaning(m: Memory, tid: int, v: int, i: nat, writing: bool, now: int, page: Page)
    requires Inv(m, tid) && Resident(m, v, i)
    ensures var m' := Hit(m, i, writing, now, page);
            && Inv(m', tid) && 0 <= v < |m.swap| && Flat(m') == Flat(m)[v := page]
            && (forall w :: InMemory(m, w) ==> InMemory(m', w))
            && (SettledBut(m, v) ==> Settled(m'))
            && (forall w :: SettledBut(m, w) ==> SettledBut(m', w))
            && (Past(m, now) ==> Latest(m', v, now))
            && (Latest(m, v, now) ==> Latest(m', v, now))
  {
    TouchInv(m, tid, i, writing, now, page);
    TouchFlat(m, tid, i, writing, now, page);
    var m' := Hit(m, i, writing, now, page);
    forall w | InMemory(m, w)
      ensures InMemory(m', w)
    {
      var j :| Resident(m, w, j);
      assert Resident(m', w, j);
    }
    assert Resident(m', v, i);
    if Latest(m, v, now) {
      var j :| Resident(m, v, j) && m.last[j] == now && forall k :: 0 <= k < 32 && k != j && m.table[k].use ==> m.last[k] < now;
      ResidentOnce(m, tid, v, i, j);
    }
  }

  /** A page fault takes nothing away from the page used last, and leaves only the new page unsettled. */
  lemma {:induction false} FaultMeaning(m: Memory, tid: int, v: nat, m': Memory, now: int)
    requires Inv(m, tid) && Settled(m) && v < |m.swap| && !InMemory(m, v) && Faulted(m, tid, v, m') && Past(m, now + 1)
    ensures Inv(m', tid) && Flat(m') == Flat(m) && InMemory(m', v) && SettledBut(m', v) && Past(m', now + 1)
    ensures forall u :: Latest(m, u, now) ==> InMemory(m', u)
  {
    var i := FaultKeeps(m, tid, v, m');
    forall u | Latest(m, u, now)
      ensures InMemory(m', u)
    {
      var j :| Resident(m, u, j) && m.last[j] == now && forall k :: 0 <= k < 32 && k != j && m.table[k].use ==> m.last[k] < now;
      var k := if j == 0 then 1 else 0;
      assert m.table[k].use ==> m.last[k] < now;
      assert Resident(m', u, j);
    }
  }

  /** What an access that hits does. */
  ghost predicate Performed(m: Memory, a: Access, seen: seq<int>, now: int, m': Memory, seen': seq<int>)
    requires |m.main| == |m.table| == |m.last| && |m'.main| == |m'.table| == |m'.last| && Proper(a, |m.swap|)
  {
    var v := a.addr / 128;
    && (Flat(m'), seen') == FlatAccess(Flat(m), a, seen)
    && (forall w :: InMemory(m, w) ==> InMemory(m', w))
    && (SettledBut(m, v) ==> Settled(m'))
    && (forall w :: SettledBut(m, w) ==> SettledBut(m', w))
    && (Past(m, now) ==> Latest(m', v, now))
  }

  /** What an access that misses does. */
  ghost predicate Missed(m: Memory, a: Access, now: int, m': Memory)
    requires |m.main| == |m.table| == |m.last| && |m'.main| == |m'.table|
  {
    var v := a.addr / 128;
    && Flat(m') == Flat(m) && InMemory(m', v) && SettledBut(m', v)
    && (forall u :: Latest(m, u, now) ==> InMemory(m', u))
  }

  lemma {:induction false} LoadPerformed(m: Memory, tid: int, addr: nat, size: nat, seen: seq<int>, i: int, now: int)
    requires Inv(m, tid) && Proper(Load(addr, size), |m.swap|) && Resident(m, addr / 128, i) && Past(m, now + 1)
    ensures addr % 128 + size <= 128
    ensures var m' := Hit(m, i, false, now, m.main[i]);
            Performed(m, Load(addr, size), seen, now, m', seen + [PageLoad(m.main[i], addr % 128, size)]) && Past(m', now + 1)
  {
    AlignedFits(addr, size);
    HitMeaning(m, tid, addr / 128, i, false, now, m.main[i]);
    FlatResident(m, tid, addr / 128, i);
    assert Flat(m)[addr / 128 := m.main[i]] == Flat(m);
  }

  lemma {:induction false} StorePerformed(m: Memory, tid: int, addr: nat, size: nat, value: seq<int> -> int32, seen: seq<int>,
                                          i: int, now: int)
    requires Inv(m, tid) && Proper(Store(addr, size, value), |m.swap|) && Resident(m, addr / 128, i) && Past(m, now + 1)
    ensures addr % 128 + size <= 128
    ensures var m' := Hit(m, i, true, now, PageStore(m.main[i], addr % 128, size, value(seen)));
            Performed(m, Store(addr, size, value), seen, now, m', seen) && Past(m', now + 1)
  {
    AlignedFits(addr, size);
    HitMeaning(m, tid, addr / 128, i, true, now, PageStore(m.main[i], addr % 128, size, value(seen)));
    FlatResident(m, tid, addr / 128, i);
  }

  // ---- How far an instruction is from getting past its accesses ----

  ghost predicate Ready(m: Memory, ins: Instruction, rank: nat)
    requires |m.last| == |m.table|
  {
    match rank
    case 2 => Settled(m)
    case 1 => InMemory(m, ins.pc / 128) && SettledBut(m, ins.pc / 128)
    case 0 => InMemory(m, ins.pc / 128) && ins.data != [] && InMemory(m, ins.data[0].addr / 128)
              && SettledBut(m, ins.data[0].addr / 128)
    case _ => false
  }

  /** The times of successive attempts, up to the k-th. */
  ghost predicate Clock(clock: nat -> int, k: nat) {
    && (forall i, j :: 0 <= i < j <= k ==> clock(i) < clock(j))
    && (forall i :: 0 <= i <= k ==> clock(i) < NEVER)
  }

  lemma {:induction false} ClockBefore(clock: nat -> int, k: nat, j: nat)
    requires Clock(clock, k) && j <= k
    ensures Clock(clock, j)
  {
  }

  class Machine {
    const tid: int
    const pageTable: array<Entry>
    const pageLasttime: array<int>
    const mainMemory: array<Page>
    const memBitMap: BitMap
    var swap: seq<Page>

    ghost predicate Valid()
      reads this, pageTable, pageLasttime, mainMemory, memBitMap, memBitMap.words
    {
      && pageTable.Length == pageLasttime.Length == mainMemory.Length == 32
      && memBitMap.Valid() && memBitMap.numBits == 32
      && Inv(Value(), tid)
    }

    ghost function Value(): Memory
      reads this, pageTable, pageLasttime, mainMemory, memBitMap
    {
      Memory(pageTable[..], pageLasttime[..], mainMemory[..], swap, memBitMap.marked)
    }

    /** An empty page table over a swap file that holds the program. */
    constructor (tid: int, image: seq<Page>)
      ensures Valid() && swap == image && Settled(Value()) && Flat(Value()) == image
      ensures forall now :: Past(Value(), now)
      ensures fresh(pageTable) && fresh(pageLasttime) && fresh(mainMemory) && fresh(memBitMap) && fresh(memBitMap.words)
    {
      this.tid := tid;
      pageTable := new Entry[32](i => Entry(-1, -1, false, false, false, false, -1));
      pageLasttime := new int[32];
      mainMemory := new Page[32](i => seq(128, j => 0));
      memBitMap := new BitMap(32);
      swap := image;
    }

    /** Translate: the frame and offset of an aligned address whose page is in memory, which it
        stamps with the time; nothing changes when the page is not in memory. */
    method Translate(virtAddr: nat, size: nat, writing: bool, now: int) returns (e: Exception, frame: int, offset: nat)
      requires Valid() && size in {1, 2, 4}
      modifies pageTable, pageLasttime
      ensures Valid()
      ensures e == AddressErrorException <==> !Aligned(virtAddr, size)
      ensures e == PageFaultException <==> Aligned(virtAddr, size) && !InMemory(old(Value()), virtAddr / 128)
      ensures e != NoException ==> Value() == old(Value())
      ensures e == NoException <==> Aligned(virtAddr, size) && InMemory(old(Value()), virtAddr / 128)
      ensures e == NoException ==>
                && offset == virtAddr % 128 && Resident(old(Value()), virtAddr / 128, frame)
                && Value() == Touched(old(Value()), frame, writing, now)
      ensures e == NoException ==> pageTable[frame].use && pageLasttime[frame] == now
      ensures e == NoException ==> pageTable[frame].dirty == (writing || old(Value()).table[frame].dirty)
    {
      if (size == 4 && virtAddr % 4 != 0) || (size == 2 && virtAddr % 2 != 0) {
        return AddressErrorException, 0, 0;
      }
      ghost var m := Value();
      var vpn := virtAddr / 128;
      offset := virtAddr % 128;
      var entry := Search(vpn, now);
      if entry == -1 {
        return PageFaultException, 0, offset;
      }
      if pageTable[entry].readOnly && writing {
        return ReadOnlyException, 0, offset;
      }
      frame := pageTable[entry].physicalPage;
      if frame >= 32 {
        return BusErrorException, 0, offset;
      }
      TouchInv(m, tid, entry, writing, now, m.main[entry]);
      pageTable[entry] := pageTable[entry].(use := true, dirty := pageTable[entry].dirty || writing);
      assert Value() == Touched(m, entry, writing, now);
      return NoException, frame, offset;
    }

    /** The search loop, which stamps the frame of the entry it finds. */
    method Search(vpn: nat, now: int) returns (entry: int)
      requires Valid()
      modifies pageLasttime
      ensures entry == -1 <==> !InMemory(old(Value()), vpn)
      ensures entry == -1 ==> Value() == old(Value())
      ensures entry != -1 ==>
                && 0 <= entry < 32 && Resident(old(Value()), vpn, entry) && EntryOk(old(Value()), tid, entry)
                && Value() == old(Value()).(last := old(Value()).last[entry := now])
    {
      ghost var m := Value();
      entry := -1;
      for i := 0 to 32
        invariant -1 <= entry < i
        invariant forall j :: 0 <= j < i ==> (Resident(m, vpn, j) <==> j == entry)
        invariant pageLasttime[..] == if entry == -1 then m.last else m.last[entry := now]
        invariant entry != -1 ==> EntryOk(m, tid, entry)
      {
        if tid == pageTable[i].tid && pageTable[i].valid && pageTable[i].virtualPage == vpn {
          assert Resident(m, vpn, i) && EntryOk(m, tid, i);
          assert entry == -1 by {
            if entry != -1 {
              ResidentOnce(m, tid, vpn, entry, i);
            }
          }
          entry := i;
          pageLasttime[pageTable[i].physicalPage] := now;
        } else {
          assert pageTable[i].valid ==> EntryOk(m, tid, i);
        }
      }
    }

    /** The first slot whose use bit is off, or 32. */
    method FindUnused() returns (i: nat)
      requires pageTable.Length == 32
      ensures i <= 32 && (forall j :: 0 <= j < i ==> pageTable[j].use)
      ensures i < 32 ==> !pageTable[i].use
    {
      i := 0;
      while i < 32
        invariant i <= 32 && forall j :: 0 <= j < i ==> pageTable[j].use
      {
        if !pageTable[i].use {
          return;
        }
        i := i + 1;
      }
    }

    /** The slot with the earliest last use; slot 0 when no use lies before NEVER. */
    method FindVictim() returns (victim: nat)
      requires pageLasttime.Length == 32
      ensures victim < 32
      ensures (exists j :: 0 <= j < 32 && pageLasttime[j] < NEVER) ==>
                && (forall j :: 0 <= j < 32 ==> pageLasttime[victim] <= pageLasttime[j])
                && (forall j :: 0 <= j < victim ==> pageLasttime[victim] < pageLasttime[j])
    {
      var temp := NEVER;
      victim := 0;
      for i := 0 to 32
        invariant victim < 32 && (victim < i || victim == 0)
        invariant forall j :: 0 <= j < i ==> temp <= pageLasttime[j]
        invariant temp == NEVER || (victim < i && temp == pageLasttime[victim] < NEVER
                                    && forall j :: 0 <= j < victim ==> temp < pageLasttime[j])
        invariant temp <= NEVER
      {
        if pageLasttime[i] < temp {
          temp := pageLasttime[i];
          victim := i;
        }
      }
    }

    /** The page-fault handler. */
    method LRU(virtAddr: nat, ghost now: int)
      requires Valid() && Settled(Value()) && Past(Value(), now) && now <= NEVER
      requires virtAddr / 128 < |swap| && !InMemory(Value(), virtAddr / 128)
      modifies this`swap, pageTable, mainMemory, memBitMap, memBitMap.words
      ensures Valid() && |swap| == old(|swap|)
      ensures Faulted(old(Value()), tid, virtAddr / 128, Value())
    {
      ghost var m := Value();
      var vpn := virtAddr / 128;
      var i := FindUnused();
      if i < 32 {
        assert FirstUnused(m, i);
        NextFrame(m, tid, i);
        FillInv(m, tid, vpn, i);
        var f := memBitMap.Find();
        pageTable[i] := Loaded(pageTable[i].(physicalPage := f), tid, vpn);
        mainMemory[f] := swap[vpn];
        assert Value() == FilledFree(m, tid, vpn, i, i);
      } else {
        i := FindVictim();
        assert m.table[i].use && EntryOk(m, tid, i) && Victim(m, i);
        EvictInv(m, tid, vpn, i);
        var f := pageTable[i].physicalPage;
        swap := swap[pageTable[i].virtualPage := mainMemory[f]];
        pageTable[i] := Loaded(pageTable[i], tid, vpn);
        mainMemory[f] := swap[vpn];
        assert Value() == Evicted(m, tid, vpn, i);
      }
    }

    /** ReadMem: the value in flat memory, or a page fault that brings the page in. */
    method ReadMem(addr: nat, size: nat, now: int, ghost seen: seq<int>) returns (ok: bool, value: int)
      requires Valid() && Proper(Load(addr, size), |swap|)
      requires Past(Value(), now + 1) && now < NEVER && (InMemory(Value(), addr / 128) || Settled(Value()))
      modifies this`swap, pageTable, pageLasttime, mainMemory, memBitMap, memBitMap.words
      ensures Valid() && |swap| == old(|swap|) && Past(Value(), now + 1)
      ensures ok <==> InMemory(old(Value()), addr / 128)
      ensures ok ==> Performed(old(Value()), Load(addr, size), seen, now, Value(), seen + [value])
      ensures !ok ==> Missed(old(Value()), Load(addr, size), now, Value())
    {
      AlignedFits(addr, size);
      ghost var m := Value();
      var e, frame, offset := Translate(addr, size, false, now);
      if e != NoException {
        LRU(addr, now + 1);
        FaultMeaning(m, tid, addr / 128, Value(), now);
        return false, 0;
      }
      ok, value := true, PageLoad(mainMemory[frame], offset, size);
      LoadPerformed(m, tid, addr, size, seen, frame, now);
      assert m.main == m.main[frame := m.main[frame]];
    }

    /** WriteMem, likewise. */
    method WriteMem(addr: nat, size: nat, value: int32, now: int, ghost seen: seq<int>) returns (ok: bool)
      requires Valid() && Proper(Load(addr, size), |swap|)
      requires Past(Value(), now + 1) && now < NEVER && (InMemory(Value(), addr / 128) || Settled(Value()))
      modifies this`swap, pageTable, pageLasttime, mainMemory, memBitMap, memBitMap.words
      ensures Valid() && |swap| == old(|swap|) && Past(Value(), now + 1)
      ensures ok <==> InMemory(old(Value()), addr / 128)
      ensures ok ==> Performed(old(Value()), Store(addr, size, _ => value), seen, now, Value(), seen)
      ensures !ok ==> Missed(old(Value()), Load(addr, size), now, Value())
    {
      AlignedFits(addr, size);
      ghost var m := Value();
      var e, frame, offset := Translate(addr, size, true, now);
      if e != NoException {
        LRU(addr, now + 1);
        FaultMeaning(m, tid, addr / 128, Value(), now);
        return false;
      }
      ghost var page := PageStore(m.main[frame], offset, size, value);
      TouchInv(m, tid, frame, true, now, page);
      mainMemory[frame] := PageStore(mainMemory[frame], offset, size, value);
      assert Value() == Hit(m, frame, true, now, page);
      StorePerformed(m, tid, addr, size, _ => value, seen, frame, now);
      ok := true;
    }

    /** One load or store: it does to flat memory what it should when the page is in memory, and
        nothing to it otherwise. */
    method Perform(a: Access, seen: seq<int>, now: int) returns (ok: bool, seen': seq<int>)
      requires Valid() && Proper(a, |swap|)
      requires Past(Value(), now + 1) && now < NEVER && (InMemory(Value(), a.addr / 128) || Settled(Value()))
      modifies this`swap, pageTable, pageLasttime, mainMemory, memBitMap, memBitMap.words
      ensures Valid() && |swap| == old(|swap|) && Past(Value(), now + 1)
      ensures ok <==> InMemory(old(Value()), a.addr / 128)
      ensures ok ==> Performed(old(Value()), a, seen, now, Value(), seen')
      ensures !ok ==> Missed(old(Value()), a, now, Value())
    {
      match a
      case Load(addr, size) =>
        var value;
        ok, value := ReadMem(addr, size, now, seen);
        seen' := seen + [value];
      case Store(addr, size, value) =>
        ok := WriteMem(addr, size, value(seen), now, seen);
        seen' := seen;
    }

    /** The data accesses of an instruction, all on page v: only the first can miss. */
    method PerformAll(data: seq<Access>, seen0: seq<int>, now: int, ghost v: int) returns (ok: bool, seen: seq<int>)
      requires Valid() && (forall a :: a in data ==> Proper(a, |swap|) && a.addr / 128 == v)
      requires Past(Value(), now + 1) && now < NEVER && SettledBut(Value(), v)
      requires InMemory(Value(), v) || Settled(Value())
      modifies this`swap, pageTable, pageLasttime, mainMemory, memBitMap, memBitMap.words
      ensures Valid() && |swap| == old(|swap|) && Past(Value(), now + 1)
      ensures ok <==> data == [] || InMemory(old(Value()), v)
      ensures ok ==> (Flat(Value()), seen) == FlatAll(old(Flat(Value())), data, seen0)
      ensures ok ==> if data == [] then Value() == old(Value()) else Settled(Value())
      ensures !ok ==> Missed(old(Value()), data[0], now, Value())
    {
      seen := seen0;
      ghost var m := Value();
      for k := 0 to |data|
        invariant Valid() && |swap| == |m.swap| && Past(Value(), now + 1) && SettledBut(Value(), v)
        invariant k > 0 ==> InMemory(m, v) && InMemory(Value(), v) && Settled(Value())
        invariant k == 0 ==> Value() == m
        invariant FlatAll(Flat(Value()), data[k..], seen) == FlatAll(Flat(m), data, seen0)
      {
        assert data[k] in data && data[k..][1..] == data[k + 1..];
        ok, seen := Perform(data[k], seen, now);
        if !ok {
          return;
        }
      }
      ok := true;
    }

    /** One attempt at an instruction.  It gets past its accesses and has its effect on flat memory,
        or it faults, leaves flat memory alone and is closer to getting past. */
    method OneInstruction(ins: Instruction, now: int, ghost rank: nat) returns (passed: bool, seen: seq<int>, ghost rank': nat)
      requires Valid() && Fits(ins, |swap|) && Past(Value(), now) && now < NEVER && Ready(Value(), ins, rank)
      modifies this`swap, pageTable, pageLasttime, mainMemory, memBitMap, memBitMap.words
      ensures Valid() && |swap| == old(|swap|) && Past(Value(), now + 1)
      ensures passed ==> (Flat(Value()), seen) == FlatExecute(old(Flat(Value())), ins) && Settled(Value())
      ensures !passed ==> Flat(Value()) == old(Flat(Value())) && rank' < rank && Ready(Value(), ins, rank')
    {
      ghost var m, page := Value(), ins.pc / 128;
      var fetch := Load(ins.pc, 4);
      rank' := 1;
      passed, seen := Perform(fetch, [], now);
      if !passed {
        return;
      }
      ghost var fetched := Value();
      ghost var v := if ins.data == [] then page else ins.data[0].addr / 128;
      passed, seen := PerformAll(ins.data, seen, now, v);
      rank' := 0;
      assert ([fetch] + ins.data)[1..] == ins.data;
    }

    /** The loop in Run for one instruction: it is started again from the beginning after every
        fault, and gets past its accesses after at most two of them.  tick counts attempts. */
    method Execute(ins: Instruction, tick: nat, clock: nat -> int) returns (seen: seq<int>, tick': nat)
      requires Valid() && Fits(ins, |swap|) && Settled(Value())
      requires Clock(clock, tick + 3) && Past(Value(), clock(tick))
      modifies this`swap, pageTable, pageLasttime, mainMemory, memBitMap, memBitMap.words
      ensures Valid() && |swap| == old(|swap|) && Settled(Value())
      ensures tick < tick' <= tick + 3 && Past(Value(), clock(tick'))
      ensures (Flat(Value()), seen) == FlatExecute(old(Flat(Value())), ins)
    {
      tick' := tick;
      ghost var m, rank := Value(), 2;
      var passed := false;
      seen := [];
      while !passed
        invariant Valid() && |swap| == |m.swap|
        invariant tick <= tick' && Clock(clock, tick + 3)
        invariant !passed ==> tick' + rank <= tick + 2 && Ready(Value(), ins, rank) && Flat(Value()) == Flat(m)
        invariant passed ==> tick < tick' <= tick + 3 && Settled(Value()) && (Flat(Value()), seen) == FlatExecute(Flat(m), ins)
        invariant Past(Value(), clock(tick'))
        decreases if passed then 0 else rank + 1
      {
        ghost var lower;
        passed, seen, lower := OneInstruction(ins, clock(tick'), rank);
        rank := lower;
        assert clock(tick') + 1 <= clock(tick' + 1);
        tick' := tick' + 1;
      }
    }

    /** Paging is transparent: n instructions of any program load exactly what they would load from
        flat memory, and leave the flat memory that they would leave. */
    method Run(program: Program, n: nat, clock: nat -> int) returns (history: seq<seq<int>>)
      requires Valid() && (forall h :: Fits(program(h), |swap|)) && Settled(Value())
      requires Clock(clock, 3 * n) && Past(Value(), clock(0))
      modifies this`swap, pageTable, pageLasttime, mainMemory, memBitMap, memBitMap.words
      ensures Valid() && |swap| == old(|swap|)
      ensures (Flat(Value()), history) == FlatRun(old(Flat(Value())), program, n)
    {
      history := [];
      ghost var m := Value();
      var tick := 0;
      for i := 0 to n
        invariant Valid() && |swap| == |m.swap| == |Flat(m)| && Settled(Value())
        invariant tick <= 3 * i && Past(Value(), clock(tick))
        invariant (Flat(Value()), history) == FlatRun(Flat(m), program, i)
      {
        var seen;
        ghost var f := Flat(Value());
        ClockBefore(clock, 3 * n, tick + 3);
        seen, tick := Execute(program(history), tick, clock);
        FlatRunOn(Flat(m), program, i, f, history, Flat(Value()), seen);
        history := history + [seen];
      }
    }
  }
}

