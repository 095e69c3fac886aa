/** The timing of the simulated disk (machine/disk.cc): seeks, rotation and the track buffer. Sector `s` passes under
    the head during the slots [T, T + 500) with T a multiple of 500 and T / 500 equal to s modulo 32. */
module DiskTiming {
  import Words

  const ROTATION_TIME := 500
  const SEEK_TIME := 500
  const SECTORS_PER_TRACK := 32
  const NUM_SECTORS := 1024

  function SeekTime(newSector: nat, lastSector: nat): nat
  {
    Words.Abs(newSector / SECTORS_PER_TRACK - lastSector / SECTORS_PER_TRACK) * SEEK_TIME
  }

  /** From `time` to the next sector boundary. */
  function Rotation(time: nat): nat
  {
    var over := time % ROTATION_TIME;
    if over > 0 then ROTATION_TIME - over else 0
  }

  function ModuloDiff(to: nat, from: nat): nat
  {
    ((to % SECTORS_PER_TRACK - from % SECTORS_PER_TRACK) + SECTORS_PER_TRACK) % SECTORS_PER_TRACK
  }

  /** A slot in which the sector passes begins at `time`. */
  ghost predicate SlotBegins(sector: nat, time: nat)
  {
    time % ROTATION_TIME == 0 && (time / ROTATION_TIME) % SECTORS_PER_TRACK == sector % SECTORS_PER_TRACK
  }

  /** The first slot of the sector at or after `from`. */
  ghost predicate NextSlot(sector: nat, from: nat, time: nat)
  {
    && from <= time && SlotBegins(sector, time)
    && forall t: nat {:trigger SlotBegins(sector, t)} :: from <= t < time ==> !SlotBegins(sector, t)
  }

  lemma RotationIsNext(time: nat)
    ensures Rotation(time) < ROTATION_TIME && (time + Rotation(time)) % ROTATION_TIME == 0
  {
  }

  lemma ModuloDiffIsLeast(to: nat, from: nat, d: nat)
    ensures 0 <= ModuloDiff(to, from) < SECTORS_PER_TRACK
    ensures (from + ModuloDiff(to, from)) % SECTORS_PER_TRACK == to % SECTORS_PER_TRACK
    ensures d < ModuloDiff(to, from) ==> (from + d) % SECTORS_PER_TRACK != to % SECTORS_PER_TRACK
  {
  }

  /** Rounding up to a sector boundary and adding the rotational delay finds the sector's next slot. */
  lemma NextSlotAfter(sector: nat, from: nat)
    ensures var boundary := from + Rotation(from);
            NextSlot(sector, from, boundary + ModuloDiff(sector, boundary / ROTATION_TIME) * ROTATION_TIME)
  {
    hide ModuloDiff, Rotation;
    RotationIsNext(from);
    var boundary := from + Rotation(from);
    var b := boundary / ROTATION_TIME;
    var d := ModuloDiff(sector, b);
    ModuloDiffIsLeast(sector, b, 0);
    assert boundary + d * ROTATION_TIME == (b + d) * ROTATION_TIME;
    forall t: nat | from <= t < boundary + d * ROTATION_TIME ensures !SlotBegins(sector, t) {
      var k := t / ROTATION_TIME;
      if t == k * ROTATION_TIME {
        assert b <= k < b + d;
        ModuloDiffIsLeast(sector, b, k - b);
        assert b + (k - b) == k;
      }
    }
  }

  lemma NextSlotUnique(sector: nat, from: nat, s: nat, t: nat)
    requires NextSlot(sector, from, s) && NextSlot(sector, from, t)
    ensures s == t
  {
  }

  function Latency(newSector: nat, writing: bool, now: nat, lastSector: nat, bufferInit: nat): nat
    requires bufferInit <= now
  {
    var seek := SeekTime(newSector, lastSector);
    var rotation := Rotation(now + seek);
    var timeAfter := now + seek + rotation;
    if !writing && seek == 0
       && (timeAfter - bufferInit) / ROTATION_TIME > ModuloDiff(newSector, bufferInit / ROTATION_TIME)
    then ROTATION_TIME
    else seek + rotation + ModuloDiff(newSector, timeAfter / ROTATION_TIME) * ROTATION_TIME + ROTATION_TIME
  }

  /** The sector comes from the track buffer. */
  ghost predicate BufferHit(newSector: nat, writing: bool, now: nat, lastSector: nat, bufferInit: nat)
    requires bufferInit <= now
  {
    && !writing && SeekTime(newSector, lastSector) == 0
    && (now + Rotation(now) - bufferInit) / ROTATION_TIME > ModuloDiff(newSector, bufferInit / ROTATION_TIME)
  }

  /** Without the buffer the request takes the seek, the least wait for the sector's slot, and one transfer. */
  lemma UnbufferedLatency(newSector: nat, writing: bool, now: nat, lastSector: nat, bufferInit: nat)
    requires bufferInit <= now && !BufferHit(newSector, writing, now, lastSector, bufferInit)
    ensures var done := now + Latency(newSector, writing, now, lastSector, bufferInit);
            && done >= ROTATION_TIME
            && NextSlot(newSector, now + SeekTime(newSector, lastSector), done - ROTATION_TIME)
  {
    hide ModuloDiff, Rotation, SeekTime, NextSlot;
    NextSlotAfter(newSector, now + SeekTime(newSector, lastSector));
  }

  /** A read is a buffer hit exactly when the head is on the sector's track and the sector's first slot since the
      buffer began to load has begun. */
  lemma HitIffSlotBegun(newSector: nat, writing: bool, now: nat, lastSector: nat, bufferInit: nat, slot: nat)
    requires bufferInit <= now && bufferInit % ROTATION_TIME == 0 && NextSlot(newSector, bufferInit, slot)
    ensures BufferHit(newSector, writing, now, lastSector, bufferInit)
        <==> !writing && SeekTime(newSector, lastSector) == 0 && slot < now
  {
    hide ModuloDiff, SeekTime, NextSlot;
    var d := ModuloDiff(newSector, bufferInit / ROTATION_TIME);
    assert Rotation(bufferInit) == 0;
    NextSlotAfter(newSector, bufferInit);
    NextSlotUnique(newSector, bufferInit, slot, bufferInit + d * ROTATION_TIME);
    BoundaryPast(now, bufferInit, d);
  }

  lemma BoundaryPast(now: nat, start: nat, d: nat)
    requires start <= now && start % ROTATION_TIME == 0
    ensures (now + Rotation(now) - start) / ROTATION_TIME > d <==> start + d * ROTATION_TIME < now
  {
    hide Rotation;
    RotationIsNext(now);
    var b, s := (now + Rotation(now)) / ROTATION_TIME, start / ROTATION_TIME;
    assert now + Rotation(now) == b * ROTATION_TIME && start == s * ROTATION_TIME;
    assert now + Rotation(now) - start == (b - s) * ROTATION_TIME;
  }

  /** So a hit need not mean that the slot has passed: the clock is rounded up to a boundary first. It does exactly
      when the request does not fall inside that slot. Either way the slot has passed when the request is done. */
  lemma HitMeansPassedIff(newSector: nat, now: nat, lastSector: nat, bufferInit: nat, slot: nat)
    requires bufferInit <= now && bufferInit % ROTATION_TIME == 0 && NextSlot(newSector, bufferInit, slot)
    requires SeekTime(newSector, lastSector) == 0
    ensures (BufferHit(newSector, false, now, lastSector, bufferInit) ==> slot + ROTATION_TIME <= now)
        <==> !(slot < now < slot + ROTATION_TIME)
    ensures BufferHit(newSector, false, now, lastSector, bufferInit) ==>
              slot + ROTATION_TIME <= now + Latency(newSector, false, now, lastSector, bufferInit)
  {
    hide ModuloDiff, SeekTime, NextSlot, Rotation;
    HitIffSlotBegun(newSector, false, now, lastSector, bufferInit, slot);
  }

  /** Sector 0 read at time 1 from a buffer that began to load at time 0. */
  lemma HitBeforePassed()
    ensures NextSlot(0, 0, 0) && BufferHit(0, false, 1, 0, 0) && Latency(0, false, 1, 0, 0) == ROTATION_TIME
    ensures 1 < 0 + ROTATION_TIME
  {
  }

  class Disk {
    var lastSector: nat
    var bufferInit: nat
    var active: bool
    ghost var doneAt: nat      // when the interrupt of the active request is due

    ghost predicate Valid(now: nat)
      reads this
    {
      && lastSector < NUM_SECTORS && bufferInit % ROTATION_TIME == 0
      && bufferInit <= if active then doneAt else now
    }

    constructor ()
      ensures forall now: nat :: Valid(now)
      ensures !active
    {
      lastSector, bufferInit, active, doneAt := 0, 0, false, 0;
    }

    /** ReadRequest and WriteRequest: the latency, and the state of head and buffer for the next request. */
    method Request(sector: nat, writing: bool, now: nat) returns (ticks: nat)
      requires Valid(now) && !active && sector < NUM_SECTORS
      modifies this
      ensures Valid(now) && active && doneAt == now + ticks && lastSector == sector
      ensures bufferInit == (var seek := SeekTime(sector, old(lastSector));
                             if seek == 0 then old(bufferInit) else now + seek + Rotation(now + seek))
      ensures ticks >= ROTATION_TIME
      ensures BufferHit(sector, writing, now, old(lastSector), old(bufferInit)) ==> ticks == ROTATION_TIME
      ensures !BufferHit(sector, writing, now, old(lastSector), old(bufferInit)) ==>
                NextSlot(sector, now + SeekTime(sector, old(lastSector)), now + ticks - ROTATION_TIME)
    {
      hide ModuloDiff, Rotation, SeekTime, NextSlot;
      ticks := Latency(sector, writing, now, lastSector, bufferInit);
      if !BufferHit(sector, writing, now, lastSector, bufferInit) {
        UnbufferedLatency(sector, writing, now, lastSector, bufferInit);
      }
      active, doneAt := true, now + ticks;
      var seek := SeekTime(sector, lastSector);
      if seek != 0 {
        bufferInit := now + seek + Rotation(now + seek);
        RotationIsNext(now + seek);
      }
      lastSector := sector;
    }

    /** The disk interrupt, which fires no earlier than it is due. */
    method CallBack(now: nat)
      requires active && doneAt <= now && Valid(now)
      modifies this
      ensures Valid(now) && !active && bufferInit <= now && lastSector == old(lastSector) && bufferInit == old(bufferInit)
    {
      active := false;
    }
  }
}
