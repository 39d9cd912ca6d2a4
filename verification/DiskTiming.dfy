/** The timing of machine/disk.cc: seeks, rotation and the track buffer.  RotationTime and SeekTime
    are 500 ticks, and a track has 32 sectors. */
module DiskTiming {

  /** The sector boundary at time t is the start of this sector of the current track. */
  predicate Boundary(t: int) { t >= 0 && t % 500 == 0 }

  function UnderHead(t: int): int { t / 500 % 32 }

  /** The transfer of a sector can start at time t. */
  predicate StartsAt(t: int, sector: int) { Boundary(t) && UnderHead(t) == sector % 32 }

  function Abs(n: int): nat { if n < 0 then -n else n }

  /** Sectors of rotation from one sector to another. */
  function ModuloDiff(to: nat, from: nat): (d: int)
    ensures 0 <= d < 32 && (from + d) % 32 == to % 32
  {
    ((to % 32 - from % 32) + 32) % 32
  }

  /** ModuloDiff is the least such rotation. */
  lemma ModuloDiffLeast(to: nat, from: nat, e: nat)
    requires (from + e) % 32 == to % 32
    ensures ModuloDiff(to, from) <= e
  {
  }

  function Seek(newSector: nat, lastSector: nat): nat {
    Abs(newSector / 32 - lastSector / 32) * 500
  }

  /** The head steps from track to track, 500 ticks for each. */
  function Walk(track: nat, to: nat): nat
    decreases Abs(to - track)
  {
    if track == to then 0 else 500 + Walk(if track < to then track + 1 else track - 1, to)
  }

  lemma {:induction false} WalkTakes(track: nat, to: nat)
    ensures Walk(track, to) == Abs(to - track) * 500
    decreases Abs(to - track)
  {
    if track != to {
      WalkTakes(if track < to then track + 1 else track - 1, to);
    }
  }

  /** A seek is that walk; it takes as long the other way round, and as long with a stop on the way. */
  lemma {:induction false} SeekIsWalk(newSector: nat, lastSector: nat, between: nat)
    ensures Seek(newSector, lastSector) == Walk(lastSector / 32, newSector / 32) == Seek(lastSector, newSector)
    ensures lastSector / 32 <= between / 32 <= newSector / 32 || newSector / 32 <= between / 32 <= lastSector / 32 ==>
              Seek(newSector, lastSector) == Seek(newSector, between) + Seek(between, lastSector)
  {
    WalkTakes(lastSector / 32, newSector / 32);
  }

  /** The wait for the next sector boundary after the seek. */
  function Rotation(now: nat, seek: nat): (r: nat)
    ensures r < 500 && Boundary(now + seek + r)
  {
    var over := (now + seek) % 500;
    if over > 0 then 500 - over else 0
  }

  /** The whole sector has passed the head between two times. */
  ghost predicate Passed(sector: int, since: int, until: int) {
    exists t :: StartsAt(t, sector) && since <= t && t + 500 <= until
  }

  /** k sectors after a boundary. */
  lemma Later(t: int, k: nat)
    requires Boundary(t)
    ensures Boundary(t + 500 * k) && (t + 500 * k) / 500 == t / 500 + k
  {
  }

  /** A sector that starts at t lies at least as many sectors ahead as the rotation to it. */
  lemma {:induction false} PassTakes(sector: nat, since: int, t: int)
    requires Boundary(since) && StartsAt(t, sector) && since <= t
    ensures since + 500 * ModuloDiff(sector, since / 500) <= t
  {
    var e := (t - since) / 500;
    assert t == since + 500 * e;
    Later(since, e);
    ModuloDiffLeast(sector, since / 500, e);
  }

  /** The track-buffer test says exactly that the whole sector has passed the head. */
  lemma BufferTest(sector: nat, since: int, until: int)
    requires Boundary(since) && Boundary(until) && since <= until
    ensures (until - since) / 500 > ModuloDiff(sector, since / 500) <==> Passed(sector, since, until)
  {
    var d := ModuloDiff(sector, since / 500);
    if (until - since) / 500 > d {
      Later(since, d);
      assert StartsAt(since + 500 * d, sector);
    }
    if t :| StartsAt(t, sector) && since <= t && t + 500 <= until {
      PassTakes(sector, since, t);
    }
  }

  /** The first time from a boundary on at which the sector comes under the head. */
  lemma FirstStart(sector: nat, since: int)
    requires Boundary(since)
    ensures var s := since + ModuloDiff(sector, since / 500) * 500;
            StartsAt(s, sector) && forall t :: since <= t < s ==> !StartsAt(t, sector)
  {
    var d := ModuloDiff(sector, since / 500);
    Later(since, d);
    forall t | since <= t < since + d * 500
      ensures !StartsAt(t, sector)
    {
      if StartsAt(t, sector) {
        PassTakes(sector, since, t);
      }
    }
  }

  /** No boundary lies between the end of the seek and the next boundary. */
  lemma NoBoundaryBefore(now: nat, seek: nat, t: int)
    requires now + seek <= t < now + seek + Rotation(now, seek)
    ensures !Boundary(t)
  {
  }

  /** The first time after a seek at which the sector comes under the head. */
  lemma {:induction false} StartsAfter(sector: nat, now: nat, seek: nat)
    ensures var after := now + seek + Rotation(now, seek);
            var s := after + ModuloDiff(sector, after / 500) * 500;
            StartsAt(s, sector) && forall t :: now + seek <= t < s ==> !StartsAt(t, sector)
  {
    var after := now + seek + Rotation(now, seek);
    FirstStart(sector, after);
    forall t | now + seek <= t < after
      ensures !StartsAt(t, sector)
    {
      NoBoundaryBefore(now, seek, t);
    }
  }

  /** The time a request takes.  A read is served from the track buffer exactly when there is no seek
      and the whole sector has passed the head since the buffer was started, by the next boundary;
      otherwise the transfer starts the first time after the seek that the sector comes under the head. */
  ghost predicate Takes(lastSector: nat, bufferInit: int, newSector: nat, writing: bool, now: nat, latency: nat) {
    var seek := Seek(newSector, lastSector);
    && (if !writing && seek == 0 && Passed(newSector, bufferInit, now + Rotation(now, 0)) then latency == 500
        else
          && StartsAt(now + latency - 500, newSector) && now + latency - 500 >= now + seek
          && (forall t :: now + seek <= t < now + latency - 500 ==> !StartsAt(t, newSector)))
    && seek + Rotation(now, seek) <= latency <= seek + 16499 <= 31999
  }

  lemma {:induction false} FarthestSeek(newSector: nat, lastSector: nat)
    requires newSector < 1024 && lastSector < 1024
    ensures Seek(newSector, lastSector) <= 15500
  {
  }

  /** The latency that ComputeLatency adds up is the time the request takes. */
  lemma {:induction false} RightLatency(lastSector: nat, bufferInit: int, newSector: nat, writing: bool, now: nat, hit: bool)
    requires Boundary(bufferInit) && bufferInit <= now && newSector < 1024 && lastSector < 1024
    requires var seek := Seek(newSector, lastSector);
             hit <==> !writing && seek == 0
                      && (now + seek + Rotation(now, seek) - bufferInit) / 500 > ModuloDiff(newSector, bufferInit / 500)
    ensures var seek := Seek(newSector, lastSector);
            var after := now + seek + Rotation(now, seek);
            Takes(lastSector, bufferInit, newSector, writing, now,
                  if hit then 500 else seek + Rotation(now, seek) + ModuloDiff(newSector, after / 500) * 500 + 500)
  {
    var seek := Seek(newSector, lastSector);
    FarthestSeek(newSector, lastSector);
    BufferTest(newSector, bufferInit, now + seek + Rotation(now, seek));
    StartsAfter(newSector, now, seek);
  }

  class Disk {
    var lastSector: nat
    var bufferInit: int
    var active: bool
    ghost var clock: nat   // the latest time at which anything happened
    ghost var doneAt: nat  // when the current request completes

    ghost predicate Valid()
      reads this
    {
      && lastSector < 1024 && Boundary(bufferInit)
      && bufferInit <= if active then doneAt else clock
    }

    constructor ()
      ensures Valid() && !active
    {
      lastSector, bufferInit, active, clock, doneAt := 0, 0, false, 0, 0;
    }

    method TimeToSeek(newSector: nat, now: nat) returns (seek: nat, rotation: nat)
      ensures seek == Seek(newSector, lastSector) == Walk(lastSector / 32, newSector / 32) && rotation == Rotation(now, seek)
    {
      SeekIsWalk(newSector, lastSector, newSector);
      var newTrack, oldTrack := newSector / 32, lastSector / 32;
      seek := Abs(newTrack - oldTrack) * 500;
      var over := (now + seek) % 500;
      rotation := 0;
      if over > 0 {
        rotation := 500 - over;
      }
    }

    method ComputeLatency(newSector: nat, writing: bool, now: nat) returns (latency: nat)
      requires Valid() && newSector < 1024 && bufferInit <= now
      ensures Takes(lastSector, bufferInit, newSector, writing, now, latency)
    {
      var seek, rotation := TimeToSeek(newSector, now);
      var timeAfter := now + seek + rotation;
      var hit := !writing && seek == 0 && (timeAfter - bufferInit) / 500 > ModuloDiff(newSector, bufferInit / 500);
      RightLatency(lastSector, bufferInit, newSector, writing, now, hit);
      if hit {
        return 500;
      }
      rotation := rotation + ModuloDiff(newSector, timeAfter / 500) * 500;
      latency := seek + rotation + 500;
    }

    /** UpdateLast: a seek starts a new track buffer at the first boundary on the new track. */
    method UpdateLast(newSector: nat, now: nat)
      requires newSector < 1024
      modifies this`lastSector, this`bufferInit
      ensures Head(lastSector, bufferInit) == Moved(old(Head(lastSector, bufferInit)), newSector, now)
    {
      var seek, rotate := TimeToSeek(newSector, now);
      if seek != 0 {
        bufferInit := now + seek + rotate;
      }
      lastSector := newSector;
    }

    /** ReadRequest and WriteRequest: the device is idle, and its completion lies at least as late as
        the start of the track buffer. */
    method Request(newSector: nat, writing: bool, now: nat) returns (latency: nat)
      requires Valid() && !active && newSector < 1024 && clock <= now
      modifies this
      ensures Valid() && active && clock == now && doneAt == now + latency
      ensures Head(lastSector, bufferInit) == Moved(old(Head(lastSector, bufferInit)), newSector, now)
      ensures Takes(old(lastSector), old(bufferInit), newSector, writing, now, latency)
    {
      latency := ComputeLatency(newSector, writing, now);
      active := true;
      UpdateLast(newSector, now);
      clock, doneAt := now, now + latency;
    }

    /** HandleInterrupt comes no earlier than the request is due. */
    method HandleInterrupt(now: nat)
      requires Valid() && active && doneAt <= now
      modifies this
      ensures Valid() && !active && clock == now && bufferInit == old(bufferInit) && lastSector == old(lastSector)
    {
      active := false;
      clock := now;
    }
  }

  // ---- Sequences of requests ----

  /** Where the head is and when the track buffer was started. */
  datatype Head = Head(lastSector: nat, bufferInit: int)

  function Moved(h: Head, newSector: nat, now: nat): Head {
    var seek := Seek(newSector, h.lastSector);
    Head(newSector, if seek != 0 then now + seek + Rotation(now, seek) else h.bufferInit)
  }

  /** The buffer goes on as long as the head stays on its track, and otherwise starts at the first boundary
      after the seek. */
  lemma {:induction false} MovedMeaning(h: Head, newSector: nat, now: nat)
    ensures var h' := Moved(h, newSector, now);
            && h'.lastSector == newSector
            && (newSector / 32 == h.lastSector / 32 ==> h'.bufferInit == h.bufferInit)
            && (newSector / 32 != h.lastSector / 32 ==>
                  var there := now + Walk(h.lastSector / 32, newSector / 32);
                  Boundary(h'.bufferInit) && there <= h'.bufferInit && forall t :: there <= t < h'.bufferInit ==> !Boundary(t))
  {
    SeekIsWalk(newSector, h.lastSector, newSector);
    var seek := Seek(newSector, h.lastSector);
    forall t | now + seek <= t < now + seek + Rotation(now, seek)
      ensures !Boundary(t)
    {
      NoBoundaryBefore(now, seek, t);
    }
  }

  datatype Request = Request(sector: nat, at: nat, done: nat)

  /** Requests one after the other, the first no earlier than `clock`: each is made when the one before
      is done, and none is done before its seek and the wait for a sector boundary. */
  ghost predicate Served(h: Head, clock: nat, requests: seq<Request>, e: Head, finish: nat)
    decreases |requests|
  {
    if requests == [] then e == h && finish == clock
    else
      var r := requests[0];
      var seek := Seek(r.sector, h.lastSector);
      && clock <= r.at && r.at + seek + Rotation(r.at, seek) <= r.done
      && Served(Moved(h, r.sector, r.at), r.done, requests[1..], e, finish)
  }

  /** Over every sequence of requests the track buffer starts on a sector boundary, which is past when
      the next request comes. */
  lemma {:induction false} BufferStartsOnBoundary(h: Head, clock: nat, requests: seq<Request>, e: Head, finish: nat)
    requires Boundary(h.bufferInit) && h.bufferInit <= clock && Served(h, clock, requests, e, finish)
    ensures Boundary(e.bufferInit) && e.bufferInit <= finish
    decreases |requests|
  {
    if requests != [] {
      var r := requests[0];
      BufferStartsOnBoundary(Moved(h, r.sector, r.at), r.done, requests[1..], e, finish);
    }
  }

  /** A hit does not mean that the sector has passed by now: here the head is on the sector's track, the
      buffer was started when the sector came under the head, and the request comes one tick before the
      sector has gone by.  It is served from the buffer all the same. */
  lemma PassedOnlyByTheBoundary()
    ensures forall latency :: Takes(0, 0, 0, false, 499, latency) ==> latency == 500
    ensures Takes(0, 0, 0, false, 499, 500) && !Passed(0, 0, 499)
  {
    assert StartsAt(0, 0);
    assert Rotation(499, 0) == 1;
  }

  /** Boundaries up to now are boundaries up to the last one before it. */
  lemma {:induction false} WholeSectors(since: int, now: nat)
    requires Boundary(since) && since <= now
    ensures Boundary(now - now % 500) && since <= now - now % 500
    ensures (now - since) / 500 == (now - now % 500 - since) / 500
  {
  }

  lemma {:induction false} PassedWhole(sector: nat, since: int, now: nat, last: int)
    requires last == now - now % 500
    ensures Passed(sector, since, now) <==> Passed(sector, since, last)
  {
    assert last <= now;
    if t :| StartsAt(t, sector) && since <= t && t + 500 <= now {
      assert Boundary(t + 500);
      WholeSectors(t + 500, now);
      assert t + 500 <= last;
    }
  }

  /** It has passed by now as well exactly when the test holds of the whole sectors up to now. */
  lemma {:induction false} PassedByNow(sector: nat, since: int, now: nat)
    requires Boundary(since) && since <= now
    ensures Passed(sector, since, now) <==> (now - since) / 500 > ModuloDiff(sector, since / 500)
  {
    WholeSectors(since, now);
    BufferTest(sector, since, now - now % 500);
    PassedWhole(sector, since, now, now - now % 500);
  }
}
