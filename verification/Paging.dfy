/** Demand paging on values: the inverted page table, main memory and the swap file of one user
    thread, and the flat memory they stand for. */
module Paging {
  import opened BitMaps
  import opened Codec

  type Page = Sector  // PageSize is SectorSize

  datatype Entry = Entry(virtualPage: int, physicalPage: int, valid: bool, readOnly: bool, use: bool, dirty: bool, tid: int)

  /** The page table, the time of last use of each frame, main memory by frames, the swap file by
      pages, and the frames that memBitMap has handed out. */
  datatype Memory = Memory(table: seq<Entry>, last: seq<int>, main: seq<Page>, swap: seq<Page>, frames: set<int>)

  const NEVER := 2147483644  // the starting minimum of the victim search

  ghost predicate Resident(m: Memory, v: int, i: int) {
    0 <= i < |m.table| && m.table[i].valid && m.table[i].virtualPage == v
  }

  ghost predicate InMemory(m: Memory, v: int) { exists i :: Resident(m, v, i) }

  /** What the table always satisfies for thread `tid`: frames are handed out in order, slot i owns
      frame i, no page sits in two slots, and the swap file covers every page. */
  ghost predicate Inv(m: Memory, tid: int) {
    && |m.table| == |m.last| == |m.main| == 32
    && (forall i :: 0 <= i < 32 && m.table[i].valid ==> EntryOk(m, tid, i))
    && (forall i :: 0 <= i < 32 && !m.table[i].valid ==> !m.table[i].use)
    && (forall i :: 0 <= i < 32 ==> !m.table[i].readOnly)
    && (forall i :: i in m.frames <==> 0 <= i < 32 && m.table[i].valid)
    && (forall i, j :: 0 <= i < j < 32 && m.table[j].valid ==> m.table[i].valid)
    && (forall i, j :: 0 <= i < j < 32 && m.table[j].valid ==> m.table[i].virtualPage != m.table[j].virtualPage)
  }

  predicate EntryOk(m: Memory, tid: int, i: nat)
    requires i < |m.table|
  {
    var e := m.table[i];
    e.physicalPage == i && e.tid == tid && 0 <= e.virtualPage < |m.swap|
  }

  /** Every page in memory has been used since it was loaded. */
  ghost predicate Settled(m: Memory) { forall i :: 0 <= i < |m.table| && m.table[i].valid ==> m.table[i].use }

  /** Every use lies before `now`. */
  ghost predicate Past(m: Memory, now: int)
    requires |m.last| == |m.table|
  {
    forall i :: 0 <= i < |m.table| && m.table[i].use ==> m.last[i] < now
  }

  // ---- The flat memory ----

  /** Page v of the flat memory: the frame it sits in, or else its page of the swap file. */
  ghost function FlatPage(m: Memory, v: nat): Page
    requires v < |m.swap| && |m.main| == |m.table|
  {
    if InMemory(m, v) then var i :| Resident(m, v, i); m.main[i] else m.swap[v]
  }

  ghost function Flat(m: Memory): (f: seq<Page>)
    requires |m.main| == |m.table|
    ensures |f| == |m.swap|
  {
    seq(|m.swap|, v requires 0 <= v < |m.swap| => FlatPage(m, v))
  }

  lemma ResidentOnce(m: Memory, tid: int, v: int, i: int, j: int)
    requires Inv(m, tid) && Resident(m, v, i) && Resident(m, v, j)
    ensures i == j
  {
  }

  lemma FlatResident(m: Memory, tid: int, v: int, i: int)
    requires Inv(m, tid) && Resident(m, v, i)
    ensures 0 <= v < |m.swap| && FlatPage(m, v) == m.main[i]
  {
    assert EntryOk(m, tid, i);
    var j :| Resident(m, v, j) && FlatPage(m, v) == m.main[j];
    ResidentOnce(m, tid, v, i, j);
  }

  lemma FlatSwapped(m: Memory, v: nat)
    requires v < |m.swap| && |m.main| == |m.table| && !InMemory(m, v)
    ensures FlatPage(m, v) == m.swap[v]
  {
  }

  // ---- A successful access ----

  /** The table after a hit on slot i. */
  function Touched(m: Memory, i: nat, writing: bool, now: int): Memory
    requires i < |m.table| == |m.last|
  {
    m.(table := m.table[i := m.table[i].(use := true, dirty := m.table[i].dirty || writing)], last := m.last[i := now])
  }

  lemma TouchInv(m: Memory, tid: int, i: nat, writing: bool, now: int, page: Page)
    requires Inv(m, tid) && i < 32 && m.table[i].valid
    ensures Inv(Touched(m, i, writing, now).(main := m.main[i := page]), tid)
    ensures forall v, j :: Resident(m, v, j) <==> Resident(Touched(m, i, writing, now).(main := m.main[i := page]), v, j)
  {
    var m' := Touched(m, i, writing, now).(main := m.main[i := page]);
    forall j | 0 <= j < 32 && m'.table[j].valid
      ensures EntryOk(m', tid, j)
    {
      assert EntryOk(m, tid, j);
    }
  }

  /** An access to a page in memory changes that page of the flat memory and no other. */
  lemma TouchFlat(m: Memory, tid: int, i: nat, writing: bool, now: int, page: Page)
    requires Inv(m, tid) && i < 32 && m.table[i].valid
    ensures EntryOk(m, tid, i)
    ensures Flat(Touched(m, i, writing, now).(main := m.main[i := page])) == Flat(m)[m.table[i].virtualPage := page]
  {
    var m' := Touched(m, i, writing, now).(main := m.main[i := page]);
    assert EntryOk(m, tid, i);
    TouchInv(m, tid, i, writing, now, page);
    forall v | 0 <= v < |m.swap|
      ensures FlatPage(m', v) == Flat(m)[m.table[i].virtualPage := page][v]
    {
      if v == m.table[i].virtualPage {
        FlatResident(m', tid, v, i);
      } else if InMemory(m, v) {
        var j :| Resident(m, v, j);
        FlatResident(m, tid, v, j);
        FlatResident(m', tid, v, j);
      } else {
        FlatSwapped(m, v);
        assert forall j :: Resident(m', v, j) ==> Resident(m, v, j);
        FlatSwapped(m', v);
      }
    }
  }

  // ---- A page fault ----

  predicate FirstUnused(m: Memory, i: nat) {
    i < |m.table| && !m.table[i].use && forall j :: 0 <= j < i ==> m.table[j].use
  }

  /** The first frame with the least time of last use, among those used before NEVER. */
  predicate Victim(m: Memory, i: nat) {
    && i < |m.last|
    && (forall j :: 0 <= j < |m.last| ==> m.last[i] <= m.last[j])
    && (forall j :: 0 <= j < i ==> m.last[i] < m.last[j])
  }

  function Loaded(e: Entry, tid: int, v: int): Entry { e.(tid := tid, virtualPage := v, valid := true) }

  /** LRU when slot i is unused: the page goes to the next free frame f. */
  function FilledFree(m: Memory, tid: int, v: nat, i: nat, f: nat): Memory
    requires i < |m.table| && f < |m.main| && v < |m.swap|
  {
    m.(table := m.table[i := Loaded(m.table[i].(physicalPage := f), tid, v)],
       main := m.main[f := m.swap[v]], frames := m.frames + {f})
  }

  /** LRU when every slot is used: slot i's page goes back to the swap file and page v takes its frame. */
  function Evicted(m: Memory, tid: int, v: nat, i: nat): Memory
    requires i < |m.table| && 0 <= m.table[i].physicalPage < |m.main| && 0 <= m.table[i].virtualPage < |m.swap| && v < |m.swap|
  {
    var f := m.table[i].physicalPage;
    var swap := m.swap[m.table[i].virtualPage := m.main[f]];
    m.(table := m.table[i := Loaded(m.table[i], tid, v)], swap := swap, main := m.main[f := swap[v]])
  }

  /** The next free frame is the frame of the first unused slot. */
  lemma NextFrame(m: Memory, tid: int, i: nat)
    requires Inv(m, tid) && Settled(m) && FirstUnused(m, i)
    ensures LowestClear(m.frames, 32) == i && AfterFind(m.frames, 32) == m.frames + {i}
  {
    LowestClearMeaning(m.frames, 32);
  }

  lemma FillInv(m: Memory, tid: int, v: nat, i: nat)
    requires Inv(m, tid) && Settled(m) && FirstUnused(m, i) && v < |m.swap| && !InMemory(m, v)
    ensures Inv(FilledFree(m, tid, v, i, i), tid)
    ensures forall w, j :: Resident(FilledFree(m, tid, v, i, i), w, j) <==> Resident(m, w, j) || (w == v && j == i)
  {
    var m' := FilledFree(m, tid, v, i, i);
    assert !m.table[i].valid;
    forall j | 0 <= j < 32 && m'.table[j].valid
      ensures EntryOk(m', tid, j)
    {
      assert j != i ==> EntryOk(m, tid, j);
    }
    assert forall j :: 0 <= j < 32 && m.table[j].valid ==> Resident(m, m.table[j].virtualPage, j);
  }

  /** Loading a page into a free frame does not change the flat memory. */
  lemma FillFlat(m: Memory, tid: int, v: nat, i: nat)
    requires Inv(m, tid) && Settled(m) && FirstUnused(m, i) && v < |m.swap| && !InMemory(m, v)
    ensures Flat(FilledFree(m, tid, v, i, i)) == Flat(m)
  {
    var m' := FilledFree(m, tid, v, i, i);
    FillInv(m, tid, v, i);
    forall w | 0 <= w < |m.swap|
      ensures FlatPage(m', w) == FlatPage(m, w)
    {
      if w == v {
        FlatResident(m', tid, v, i);
        FlatSwapped(m, v);
      } else if InMemory(m, w) {
        var j :| Resident(m, w, j);
        FlatResident(m, tid, w, j);
        FlatResident(m', tid, w, j);
      } else {
        FlatSwapped(m, w);
        FlatSwapped(m', w);
      }
    }
  }

  lemma EvictInv(m: Memory, tid: int, v: nat, i: nat)
    requires Inv(m, tid) && i < 32 && m.table[i].valid && v < |m.swap| && !InMemory(m, v)
    ensures EntryOk(m, tid, i) && Inv(Evicted(m, tid, v, i), tid)
    ensures forall w, j :: Resident(Evicted(m, tid, v, i), w, j) <==> if j == i then w == v else Resident(m, w, j)
  {
    assert EntryOk(m, tid, i);
    var m' := Evicted(m, tid, v, i);
    forall j | 0 <= j < 32 && m'.table[j].valid
      ensures EntryOk(m', tid, j)
    {
      assert j != i ==> EntryOk(m, tid, j);
    }
    assert forall j :: 0 <= j < 32 && m.table[j].valid ==> Resident(m, m.table[j].virtualPage, j);
  }

  /** Neither does replacing a page. */
  lemma EvictFlat(m: Memory, tid: int, v: nat, i: nat)
    requires Inv(m, tid) && i < 32 && m.table[i].valid && v < |m.swap| && !InMemory(m, v)
    ensures EntryOk(m, tid, i) && Flat(Evicted(m, tid, v, i)) == Flat(m)
  {
    EvictInv(m, tid, v, i);
    var m' := Evicted(m, tid, v, i);
    var u := m.table[i].virtualPage;
    assert Resident(m, u, i);
    forall w | 0 <= w < |m.swap|
      ensures FlatPage(m', w) == FlatPage(m, w)
    {
      if w == v {
        FlatResident(m', tid, v, i);
        FlatSwapped(m, v);
      } else if w == u {
        FlatResident(m, tid, u, i);
        Elsewhere(m, m', tid, u, i);
      } else if InMemory(m, w) {
        var j :| Resident(m, w, j);
        FlatResident(m, tid, w, j);
        FlatResident(m', tid, w, j);
      } else {
        FlatSwapped(m, w);
        FlatSwapped(m', w);
      }
    }
  }

  lemma Elsewhere(m: Memory, m': Memory, tid: int, u: int, i: nat)
    requires Inv(m, tid) && Resident(m, u, i) && |m'.main| == |m'.table| && 0 <= u < |m'.swap|
    requires forall j :: Resident(m', u, j) ==> j != i && Resident(m, u, j)
    ensures FlatPage(m', u) == m'.swap[u]
  {
    if InMemory(m', u) {
      var j :| Resident(m', u, j);
      ResidentOnce(m, tid, u, i, j);
    }
  }

  /** LRU on a settled memory: an unused slot if there is one, else the least recently used. */
  ghost predicate Faulted(m: Memory, tid: int, v: nat, m': Memory)
    requires Inv(m, tid) && v < |m.swap|
  {
    || (exists i :: FirstUnused(m, i) && m' == FilledFree(m, tid, v, i, i))
    || ((forall j :: 0 <= j < 32 ==> m.table[j].use)
        && exists i :: Victim(m, i) && EntryOk(m, tid, i) && m' == Evicted(m, tid, v, i))
  }

  /** A page fault brings the page in and changes nothing that the program can see. */
  lemma FaultKeeps(m: Memory, tid: int, v: nat, m': Memory) returns (i: nat)
    requires Inv(m, tid) && Settled(m) && v < |m.swap| && !InMemory(m, v) && Faulted(m, tid, v, m')
    ensures Inv(m', tid) && Flat(m') == Flat(m) && Resident(m', v, i)
    ensures m'.last == m.last && forall j :: 0 <= j < 32 && j != i ==> m'.table[j] == m.table[j]
    ensures m'.table[i].use == m.table[i].use
    ensures m.table[i].valid ==> Victim(m, i) && forall j :: 0 <= j < 32 ==> m.table[j].use
  {
    if exists i :: FirstUnused(m, i) && m' == FilledFree(m, tid, v, i, i) {
      i :| FirstUnused(m, i) && m' == FilledFree(m, tid, v, i, i);
      FillInv(m, tid, v, i);
      FillFlat(m, tid, v, i);
    } else {
      i :| Victim(m, i) && EntryOk(m, tid, i) && m' == Evicted(m, tid, v, i);
      EvictInv(m, tid, v, i);
      EvictFlat(m, tid, v, i);
    }
  }

  // ---- Loads and stores ----

  predicate Aligned(addr: nat, size: nat) {
    size == 1 || (size == 2 && addr % 2 == 0) || (size == 4 && addr % 4 == 0)
  }

  lemma AlignedFits(addr: nat, size: nat)
    requires Aligned(addr, size)
    ensures addr % 128 + size <= 128
  {
  }

  /** Little-endian; a byte is sign-extended, a half word is not. */
  function PageLoad(page: Page, at: nat, size: nat): int32
    requires at + size <= 128 && size in {1, 2, 4}
  {
    if size == 1 then (if page[at] < 128 then page[at] else page[at] - 256)
    else if size == 2 then page[at] + 256 * page[at + 1]
    else Signed(Combine(page[at], page[at + 1], page[at + 2], page[at + 3]))
  }

  function PageStore(page: Page, at: nat, size: nat, value: int32): Page
    requires at + size <= 128 && size in {1, 2, 4}
  {
    page[..at] + WordBytes(Unsigned(value))[..size] + page[at + size..]
  }

  datatype Access = Load(addr: nat, size: nat) | Store(addr: nat, size: nat, value: seq<int> -> int32)

  predicate Proper(a: Access, pages: nat) { Aligned(a.addr, a.size) && a.addr / 128 < pages }

  /** An access to flat memory.  seen is what the instruction has loaded so far. */
  function FlatAccess(f: seq<Page>, a: Access, seen: seq<int>): (r: (seq<Page>, seq<int>))
    requires Proper(a, |f|)
    ensures |r.0| == |f|
  {
    AlignedFits(a.addr, a.size);
    var v, at := a.addr / 128, a.addr % 128;
    match a
    case Load(_, size) => (f, seen + [PageLoad(f[v], at, size)])
    case Store(_, size, value) => (f[v := PageStore(f[v], at, size, value(seen))], seen)
  }

  function FlatAll(f: seq<Page>, accesses: seq<Access>, seen: seq<int>): (r: (seq<Page>, seq<int>))
    requires forall a :: a in accesses ==> Proper(a, |f|)
    ensures |r.0| == |f|
    decreases |accesses|
  {
    if accesses == [] then (f, seen)
    else
      assert accesses[0] in accesses;
      var (g, now) := FlatAccess(f, accesses[0], seen);
      FlatAll(g, accesses[1..], now)
  }

  /** Byte b of the flat memory. */
  function FlatByte(f: seq<Page>, b: nat): byte
    requires b / 128 < |f|
  {
    f[b / 128][b % 128]
  }

  /** A store changes exactly the bytes it names, so a load returns what was last stored there. */
  lemma StoreBytes(f: seq<Page>, addr: nat, size: nat, value: int32, b: nat)
    requires Aligned(addr, size) && addr / 128 < |f| && b / 128 < |f|
    ensures var g := FlatAccess(f, Store(addr, size, _ => value), []).0;
            FlatByte(g, b) == if addr <= b < addr + size then WordBytes(Unsigned(value))[b - addr] else FlatByte(f, b)
  {
    AlignedFits(addr, size);
  }

  /** The bytes of the flat memory from b on, taken together with the lowest first. */
  function LittleEndian(f: seq<Page>, b: nat, size: nat): nat
    requires size > 0 ==> (b + size - 1) / 128 < |f|
    decreases size
  {
    if size == 0 then 0 else FlatByte(f, b) + 256 * LittleEndian(f, b + 1, size - 1)
  }

  /** The values of 8 * size bits: bytes and words are signed, half words are not. */
  predicate Loadable(v: int, size: nat) {
    (size == 1 ==> -128 <= v < 128) && (size == 2 ==> 0 <= v < 0x1_0000) && (size == 4 ==> -0x8000_0000 <= v < 0x8000_0000)
  }

  /** 2 to the power of 8 * size. */
  function Modulus(size: nat): (m: nat)
    ensures m > 0
  {
    if size == 0 then 1 else 256 * Modulus(size - 1)
  }

  lemma Moduli()
    ensures Modulus(1) == 256 && Modulus(2) == 0x1_0000 && Modulus(4) == 0x1_0000_0000
  {
    assert Modulus(3) == 0x100_0000;
  }

  lemma {:induction false} Position(b: nat, page: nat, at: nat)
    requires b == 128 * page + at && at < 128
    ensures b / 128 == page && b % 128 == at
  {
  }

  /** The bytes of an access lie on one page, one after the other. */
  lemma {:induction false} SameLine(addr: nat, size: nat)
    requires Aligned(addr, size)
    ensures size >= 2 ==> (addr + 1) / 128 == addr / 128 && (addr + 1) % 128 == addr % 128 + 1
    ensures size == 4 ==> (addr + 2) / 128 == (addr + 3) / 128 == addr / 128
    ensures size == 4 ==> (addr + 2) % 128 == addr % 128 + 2 && (addr + 3) % 128 == addr % 128 + 3
  {
    AlignedFits(addr, size);
    var page, at := addr / 128, addr % 128;
    if size >= 2 {
      Position(addr + 1, page, at + 1);
    }
    if size == 4 {
      Position(addr + 2, page, at + 2);
      Position(addr + 3, page, at + 3);
    }
  }

  /** A load gives the one value of its size that its bytes stand for. */
  lemma {:induction false} LoadBytes(f: seq<Page>, addr: nat, size: nat)
    requires Aligned(addr, size) && addr / 128 < |f|
    ensures (addr + size - 1) / 128 == addr / 128
    ensures var (g, seen) := FlatAccess(f, Load(addr, size), []);
            g == f && |seen| == 1 && Loadable(seen[0], size)
            && (seen[0] == LittleEndian(f, addr, size) || seen[0] == LittleEndian(f, addr, size) - Modulus(size))
  {
    AlignedFits(addr, size);
    Moduli();
    SameLine(addr, size);
    if size == 2 {
      assert LittleEndian(f, addr + 2, 0) == 0;
    } else if size == 4 {
      assert LittleEndian(f, addr + 2, 2) == FlatByte(f, addr + 2) + 256 * FlatByte(f, addr + 3) by {
        assert LittleEndian(f, addr + 4, 0) == 0;
      }
    }
  }

  lemma {:induction false} LowByte(u: nat)
    ensures u == 256 * (u / 256) + u % 256
  {
  }

  /** The low two bytes of a word. */
  lemma {:induction false} LowBytes(u: nat)
    ensures u == 0x1_0000 * (u / 0x1_0000) + (u % 256 + 256 * (u / 256 % 256))
  {
    LowByte(u);
    LowByte(u / 256);
    assert u / 256 / 256 == u / 0x1_0000;
  }

  lemma {:induction false} ByteBack(v: int, u: nat, value: int)
    requires (v == u % 256 || v == u % 256 - 256) && (value == u || value == u - 0x1_0000_0000)
    ensures (v - value) % 256 == 0
  {
    LowByte(u);
    var k := -(u / 256) - (if v == u % 256 then 0 else 1) + (if value == u then 0 else 0x100_0000);
    assert v - value == 256 * k;
  }

  lemma {:induction false} HalfBack(v: int, u: nat, value: int)
    requires v == u % 256 + 256 * (u / 256 % 256) && (value == u || value == u - 0x1_0000_0000)
    ensures (v - value) % 0x1_0000 == 0
  {
    LowBytes(u);
    var k := -(u / 0x1_0000) + (if value == u then 0 else 0x1_0000);
    assert v - value == 0x1_0000 * k;
  }

  /** What a load of this size finds where a value was stored. */
  lemma {:induction false} StoredBytes(f: seq<Page>, addr: nat, size: nat, value: int32)
    requires Aligned(addr, size) && addr / 128 < |f|
    ensures var u, g := Unsigned(value), FlatAccess(f, Store(addr, size, _ => value), []).0;
            var seen := FlatAccess(g, Load(addr, size), []).1;
            && |seen| == 1 && Loadable(seen[0], size)
            && (size == 1 ==> seen[0] == ByteOf(u, 0) || seen[0] == ByteOf(u, 0) - 256)
            && (size == 2 ==> seen[0] == ByteOf(u, 0) + 256 * ByteOf(u, 1))
            && (size == 4 ==> seen[0] == value)
  {
    AlignedFits(addr, size);
    WordRoundTrip(Unsigned(value));
  }

  /** A load returns what was last stored with its size: the value, modulo 2 to the number of its bits. */
  lemma {:induction false} LoadAfterStore(f: seq<Page>, addr: nat, size: nat, value: int32)
    requires Aligned(addr, size) && addr / 128 < |f|
    ensures var g := FlatAccess(f, Store(addr, size, _ => value), []).0;
            var seen := FlatAccess(g, Load(addr, size), []).1;
            |seen| == 1 && Loadable(seen[0], size) && (seen[0] - value) % Modulus(size) == 0
  {
    Moduli();
    StoredBytes(f, addr, size, value);
    var g := FlatAccess(f, Store(addr, size, _ => value), []).0;
    var v := FlatAccess(g, Load(addr, size), []).1[0];
    if size == 1 {
      ByteBack(v, Unsigned(value), value);
    } else if size == 2 {
      HalfBack(v, Unsigned(value), value);
    }
  }

  /** Accesses take effect one after the other. */
  lemma {:induction false} FlatAllInTurn(f: seq<Page>, first: seq<Access>, rest: seq<Access>, seen: seq<int>)
    requires forall a :: a in first + rest ==> Proper(a, |f|)
    ensures (forall a :: a in first ==> Proper(a, |f|)) && (forall a :: a in rest ==> Proper(a, |f|))
    ensures var (g, now) := FlatAll(f, first, seen);
            FlatAll(f, first + rest, seen) == FlatAll(g, rest, now)
    decreases |first|
  {
    assert forall a :: a in first ==> a in first + rest;
    assert forall a :: a in rest ==> a in first + rest;
    if first == [] {
      assert first + rest == rest;
    } else {
      assert (first + rest)[1..] == first[1..] + rest;
      assert forall a :: a in first[1..] + rest ==> a in first + rest;
      var (g, now) := FlatAccess(f, first[0], seen);
      FlatAllInTurn(g, first[1..], rest, now);
    }
  }

  // ---- Instructions ----

  /** An instruction as far as memory goes: it is fetched from pc, and its data accesses all fall on
      one page. */
  datatype Instruction = Instruction(pc: nat, data: seq<Access>)

  ghost predicate Fits(ins: Instruction, pages: nat) {
    && Proper(Load(ins.pc, 4), pages)
    && (forall a :: a in ins.data ==> Proper(a, pages))
    && (forall a, b :: a in ins.data && b in ins.data ==> a.addr / 128 == b.addr / 128)
  }

  function FlatExecute(f: seq<Page>, ins: Instruction): (r: (seq<Page>, seq<int>))
    requires Fits(ins, |f|)
    ensures |r.0| == |f|
  {
    FlatAll(f, [Load(ins.pc, 4)] + ins.data, [])
  }

  function Loads(accesses: seq<Access>): nat {
    if accesses == [] then 0 else (if accesses[0].Load? then 1 else 0) + Loads(accesses[1..])
  }

  lemma {:induction false} SeesLoads(f: seq<Page>, accesses: seq<Access>, seen: seq<int>)
    requires forall a :: a in accesses ==> Proper(a, |f|)
    ensures var (g, now) := FlatAll(f, accesses, seen);
            seen <= now && |now| == |seen| + Loads(accesses) && (Loads(accesses) == |accesses| ==> g == f)
    decreases |accesses|
  {
    if accesses != [] {
      var (g, now) := FlatAccess(f, accesses[0], seen);
      SeesLoads(g, accesses[1..], now);
      LoadsAtMost(accesses[1..]);
    }
  }

  lemma {:induction false} LoadsAtMost(accesses: seq<Access>)
    ensures Loads(accesses) <= |accesses|
  {
    if accesses != [] {
      LoadsAtMost(accesses[1..]);
    }
  }

  /** An instruction sees the word it is fetched from and then one value for each of its loads, and what it
      does to memory its data accesses do, in turn. */
  lemma {:induction false} ExecuteSees(f: seq<Page>, ins: Instruction)
    requires Fits(ins, |f|)
    ensures var (g, seen) := FlatExecute(f, ins);
            && |seen| == 1 + Loads(ins.data) && seen[0] == FlatAccess(f, Load(ins.pc, 4), []).1[0]
            && (g, seen) == FlatAll(f, ins.data, [seen[0]])
  {
    var fetch := [Load(ins.pc, 4)];
    FlatAllInTurn(f, fetch, ins.data, []);
    assert fetch[1..] == [];
    var (g, now) := FlatAll(f, fetch, []);
    assert (g, now) == FlatAccess(f, Load(ins.pc, 4), []);
    assert g == f && now == [now[0]];
    SeesLoads(f, ins.data, now);
  }

  /** A program picks each instruction by what the earlier ones have loaded. */
  type Program = seq<seq<int>> -> Instruction

  /** n instructions on flat memory: the memory and what each of them loaded. */
  function FlatRun(f: seq<Page>, program: Program, n: nat): (r: (seq<Page>, seq<seq<int>>))
    requires forall h :: Fits(program(h), |f|)
    ensures |r.0| == |f|
  {
    if n == 0 then (f, [])
    else
      var (g, history) := FlatRun(f, program, n - 1);
      var (g', seen) := FlatExecute(g, program(history));
      (g', history + [seen])
  }

  lemma {:induction false} FlatRunOn(f: seq<Page>, program: Program, n: nat, g: seq<Page>, history: seq<seq<int>>, g': seq<Page>, seen: seq<int>)
    requires forall h :: Fits(program(h), |f|)
    requires (g, history) == FlatRun(f, program, n) && (g', seen) == FlatExecute(g, program(history))
    ensures (g', history + [seen]) == FlatRun(f, program, n + 1)
  {
  }
}
