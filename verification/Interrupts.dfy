/** Simulated time and hardware interrupts (machine/interrupt.cc): a list of pending interrupts sorted by due time,
    and the counters of simulated time. */
module Interrupts {
  import Lists

  const USER_TICK := 1
  const SYSTEM_TICK := 10

  datatype IntStatus = IntOff | IntOn
  datatype MachineStatus = IdleMode | SystemMode | UserMode

  /** `id` numbers the calls of Schedule. */
  datatype PendingInterrupt = PendingInterrupt(when: int, id: nat)

  /** Schedule asserts that an interrupt is in the future. */
  type Delay = d: int | d > 0 witness 1

  /** What a handler may do to the interrupt simulation: schedule interrupts, and ask for a context switch. */
  datatype Effect = Effect(requests: seq<Delay>, yieldOnReturn: bool)

  function PendingCompare(x: PendingInterrupt, y: PendingInterrupt): int
  {
    if x.when < y.when then -1 else if x.when > y.when then 1 else 0
  }

  /** Earlier, or due at the same time and scheduled earlier. */
  ghost predicate Before(x: PendingInterrupt, y: PendingInterrupt)
  {
    x.when < y.when || (x.when == y.when && x.id < y.id)
  }

  ghost predicate InOrder(s: seq<PendingInterrupt>)
  {
    forall i, j :: 0 <= i < j < |s| ==> Before(s[i], s[j])
  }

  /** What has happened: the interrupts that fired, in firing order, and those that are still pending. */
  ghost predicate History(scheduled: seq<PendingInterrupt>, fired: seq<PendingInterrupt>,
                          pending: seq<PendingInterrupt>, now: int)
  {
    && (forall i :: 0 <= i < |scheduled| ==> scheduled[i].id == i)
    && (forall p :: p in pending ==> p.id < |scheduled| && scheduled[p.id] == p)
    && (forall p :: p in fired ==> p.id < |scheduled| && scheduled[p.id] == p && p.when <= now)
    && (forall p :: p in scheduled ==> p in fired || p in pending)
    && InOrder(fired + pending)
  }

  /** Inserting a later interrupt keeps the order: it goes behind everything due at the same time. */
  lemma ScheduleKeepsHistory(scheduled: seq<PendingInterrupt>, fired: seq<PendingInterrupt>,
                             pending: seq<PendingInterrupt>, now: int, p: PendingInterrupt)
    requires History(scheduled, fired, pending, now) && p.when > now && p.id == |scheduled|
    ensures History(scheduled + [p], fired, Lists.InsertSorted(pending, p, PendingCompare), now)
  {
    hide Lists.InsertSorted, Lists.IsOrder, InOrder, History;
    CompareIsOrder();
    HistorySorted(scheduled, fired, pending, now);
    var k := Lists.InsertSortedIsSorted(pending, p, PendingCompare);
    InsertKeepsHistory(scheduled, fired, pending, now, p, k);
  }

  lemma CompareIsOrder()
    ensures Lists.IsOrder(PendingCompare)
  {
  }

  lemma HistorySorted(scheduled: seq<PendingInterrupt>, fired: seq<PendingInterrupt>,
                      pending: seq<PendingInterrupt>, now: int)
    requires History(scheduled, fired, pending, now)
    ensures Lists.Sorted(pending, PendingCompare)
  {
    forall i, j | 0 <= i < j < |pending| ensures PendingCompare(pending[i], pending[j]) <= 0 {
      assert (fired + pending)[|fired| + i] == pending[i] && (fired + pending)[|fired| + j] == pending[j];
    }
  }

  lemma InsertKeepsHistory(scheduled: seq<PendingInterrupt>, fired: seq<PendingInterrupt>,
                           pending: seq<PendingInterrupt>, now: int, p: PendingInterrupt, k: nat)
    requires History(scheduled, fired, pending, now) && p.when > now && p.id == |scheduled| && k <= |pending|
    requires forall i :: 0 <= i < k ==> PendingCompare(pending[i], p) <= 0
    requires forall i :: k <= i < |pending| ==> PendingCompare(p, pending[i]) < 0
    ensures History(scheduled + [p], fired, pending[..k] + [p] + pending[k..], now)
  {
    var pending' := pending[..k] + [p] + pending[k..];
    forall q | q in pending ensures q in pending' {
      var i :| 0 <= i < |pending| && pending[i] == q;
      assert pending'[if i < k then i else i + 1] == q;
    }
    assert pending'[k] == p;
    InsertInOrder(fired, pending, p, k);
  }

  lemma InsertInOrder(fired: seq<PendingInterrupt>, pending: seq<PendingInterrupt>, p: PendingInterrupt, k: nat)
    requires InOrder(fired + pending) && k <= |pending|
    requires forall q :: q in fired ==> Before(q, p)
    requires forall i :: 0 <= i < k ==> Before(pending[i], p)
    requires forall i :: k <= i < |pending| ==> Before(p, pending[i])
    ensures InOrder(fired + (pending[..k] + [p] + pending[k..]))
  {
    hide Before;
    var was, s, m := fired + pending, fired + (pending[..k] + [p] + pending[k..]), |fired| + k;
    forall i | 0 <= i < |s| && i != m ensures s[i] == was[if i < m then i else i - 1] {
    }
    forall i, j | 0 <= i < j < |s| ensures Before(s[i], s[j]) {
      if j == m {
        assert i < |fired| ==> s[i] in fired;
      }
    }
  }

  /** The first pending interrupt moves to the log when it is due. */
  lemma FireKeepsHistory(scheduled: seq<PendingInterrupt>, fired: seq<PendingInterrupt>,
                         pending: seq<PendingInterrupt>, now: int)
    requires History(scheduled, fired, pending, now) && pending != [] && pending[0].when <= now
    ensures History(scheduled, fired + [pending[0]], pending[1..], now)
  {
    assert fired + [pending[0]] + pending[1..] == fired + pending;
    assert pending[0] in pending;
    forall q | q in pending ensures q in fired + [pending[0]] || q in pending[1..] {
      assert pending == [pending[0]] + pending[1..];
    }
  }

  lemma LaterKeepsHistory(scheduled: seq<PendingInterrupt>, fired: seq<PendingInterrupt>,
                          pending: seq<PendingInterrupt>, now: int, later: int)
    requires History(scheduled, fired, pending, now) && now <= later
    ensures History(scheduled, fired, pending, later)
  {
  }

  /** No interrupt fires twice, one that fired is not pending, and whatever fires later is due later, or at the same
      time and scheduled later. */
  lemma AtMostOnceInOrder(scheduled: seq<PendingInterrupt>, fired: seq<PendingInterrupt>,
                          pending: seq<PendingInterrupt>, now: int, i: nat, j: nat)
    requires History(scheduled, fired, pending, now) && i < j < |fired + pending|
    ensures (fired + pending)[i].id != (fired + pending)[j].id
    ensures (fired + pending)[i].when <= (fired + pending)[j].when
    ensures (fired + pending)[i].when == (fired + pending)[j].when ==> (fired + pending)[i].id < (fired + pending)[j].id
  {
    var s := fired + pending;
    assert scheduled[s[i].id] == s[i] && scheduled[s[j].id] == s[j];
    assert Before(s[i], s[j]);
  }

  /** Once nothing pending is due, every interrupt scheduled for now or earlier has fired. */
  lemma DueHaveFired(scheduled: seq<PendingInterrupt>, fired: seq<PendingInterrupt>,
                     pending: seq<PendingInterrupt>, now: int, n: nat)
    requires History(scheduled, fired, pending, now) && forall p :: p in pending ==> p.when > now
    requires n < |scheduled|
    ensures scheduled[n] in fired <==> scheduled[n].when <= now
  {
    assert scheduled[n] in scheduled;
  }

  // ---- why the loop of CheckIfDue ends ----

  ghost function DueCount(s: seq<PendingInterrupt>, now: int): nat
  {
    if s == [] then 0 else (if s[0].when <= now then 1 else 0) + DueCount(s[1..], now)
  }

  /** Handlers do not add to what is due. */
  lemma {:induction false} LaterNotDue(s: seq<PendingInterrupt>, p: PendingInterrupt, now: int)
    requires p.when > now
    ensures DueCount(Lists.InsertSorted(s, p, PendingCompare), now) == DueCount(s, now)
  {
    if s != [] && PendingCompare(p, s[0]) >= 0 {
      LaterNotDue(s[1..], p, now);
    }
  }

  /** The interrupts that the requests of one handler become. */
  ghost function Requested(requests: seq<Delay>, now: int, id: nat): (r: seq<PendingInterrupt>)
    ensures |r| == |requests|
  {
    seq(|requests|, i requires 0 <= i < |requests| => PendingInterrupt(now + requests[i], id + i))
  }

  lemma RequestedNext(requests: seq<Delay>, i: nat, now: int, id: nat)
    requires i < |requests|
    ensures Requested(requests[..i + 1], now, id) ==
            Requested(requests[..i], now, id) + [PendingInterrupt(now + requests[i], id + i)]
  {
  }

  /** A handler called since the first `n` has asked for a context switch. */
  ghost predicate AskedSince(behave: (nat, PendingInterrupt) -> Effect, fired: seq<PendingInterrupt>, n: nat)
  {
    exists k :: n <= k < |fired| && behave(k, fired[k]).yieldOnReturn
  }

  lemma AskedMore(behave: (nat, PendingInterrupt) -> Effect, fired: seq<PendingInterrupt>, n: nat, p: PendingInterrupt)
    requires n <= |fired|
    ensures AskedSince(behave, fired + [p], n) <==> AskedSince(behave, fired, n) || behave(|fired|, p).yieldOnReturn
  {
    var more := fired + [p];
    assert more[|fired|] == p;
    if AskedSince(behave, fired, n) {
      var k :| n <= k < |fired| && behave(k, fired[k]).yieldOnReturn;
      assert more[k] == fired[k];
    }
    if AskedSince(behave, more, n) {
      var k :| n <= k < |more| && behave(k, more[k]).yieldOnReturn;
      assert k < |fired| ==> fired[k] == more[k];
    }
  }

  class Interrupt {
    var level: IntStatus
    const pending: Lists.List<PendingInterrupt>
    var inHandler: bool
    var yieldOnReturn: bool
    var status: MachineStatus
    var totalTicks: int
    var idleTicks: int
    var systemTicks: int
    var userTicks: int
    var numScheduled: nat                             // identifies the next interrupt
    var numFired: nat                                 // counts handler calls
    const behave: (nat, PendingInterrupt) -> Effect   // what the n-th handler call does

    ghost var scheduled: seq<PendingInterrupt>        // every interrupt ever scheduled
    ghost var fired: seq<PendingInterrupt>            // those whose handler was called, in that order
    ghost var firedAt: seq<int>                       // and when

    ghost predicate Valid()
      reads this, pending, pending.nodes
    {
      && pending.Valid() && Accounted()
    }

    /** What the pending interrupts are, and the counters. */
    ghost predicate Accounted()
      reads this, pending
    {
      && totalTicks == idleTicks + systemTicks + userTicks && numScheduled == |scheduled| && numFired == |fired|
      && History(scheduled, fired, Pending(), totalTicks)
      && OnTime(fired, firedAt, totalTicks)
    }

    ghost function Pending(): seq<PendingInterrupt>
      reads this, pending
    {
      pending.Items()
    }

    ghost function Elements(): set<Lists.ListElement<PendingInterrupt>>
      reads this, pending
    {
      set e | e in pending.nodes
    }

    constructor (behave: (nat, PendingInterrupt) -> Effect)
      ensures Valid() && level == IntOff && scheduled == fired == [] && totalTicks == 0 && this.behave == behave
      ensures fresh(pending) && Pending() == []
    {
      this.behave := behave;
      pending := new Lists.List();
      level, inHandler, yieldOnReturn, status := IntOff, false, false, SystemMode;
      totalTicks, idleTicks, systemTicks, userTicks := 0, 0, 0, 0;
      numScheduled, numFired, scheduled, fired, firedAt := 0, 0, [], [], [];
    }

    method Schedule(fromNow: Delay)
      requires Valid()
      modifies this`scheduled, this`numScheduled, pending, Elements()
      ensures Valid() && forall e :: e in Elements() ==> e in old(Elements()) || fresh(e)
      ensures var toOccur := PendingInterrupt(totalTicks + fromNow, |old(scheduled)|);
              && scheduled == old(scheduled) + [toOccur]
              && Pending() == Lists.InsertSorted(old(Pending()), toOccur, PendingCompare)
      ensures DueCount(Pending(), totalTicks) == old(DueCount(Pending(), totalTicks))
    {
      hide History, DueCount, Lists.InsertSorted, OnTime, Lists.List.Valid;
      var toOccur := PendingInterrupt(totalTicks + fromNow, numScheduled);
      NotPendingYet(scheduled, fired, Pending(), totalTicks, toOccur);
      ScheduleKeepsHistory(scheduled, fired, Pending(), totalTicks, toOccur);
      LaterNotDue(Pending(), toOccur, totalTicks);
      pending.Insert(toOccur, PendingCompare);
      scheduled := scheduled + [toOccur];
      numScheduled := numScheduled + 1;
    }

    /** Takes the first interrupt off the list and runs its handler. */
    method Fire()
      requires Valid() && Pending() != [] && Pending()[0].when <= totalTicks && inHandler
      modifies this`scheduled, this`numScheduled, this`fired, this`firedAt, this`numFired, this`yieldOnReturn
      modifies pending, Elements()
      ensures Valid() && forall e :: e in Elements() ==> e in old(Elements()) || fresh(e)
      ensures fired == old(fired) + [old(Pending()[0])] && firedAt == old(firedAt) + [totalTicks]
      ensures var effect := behave(|old(fired)|, old(Pending()[0]));
              && scheduled == old(scheduled) + Requested(effect.requests, totalTicks, |old(scheduled)|)
              && yieldOnReturn == (old(yieldOnReturn) || effect.yieldOnReturn)
      ensures DueCount(Pending(), totalTicks) < old(DueCount(Pending(), totalTicks))
    {
      hide History, OnTime, DueCount, Requested, Lists.List.Valid;
      var next := TakeFirst();
      var effect := behave(numFired - 1, next);
      ScheduleAll(effect.requests);
      if effect.yieldOnReturn {
        yieldOnReturn := true;
      }
    }

    method TakeFirst() returns (next: PendingInterrupt)
      requires Valid() && Pending() != [] && Pending()[0].when <= totalTicks
      modifies this`fired, this`firedAt, this`numFired, pending
      ensures Valid() && next == old(Pending()[0]) && Elements() <= old(Elements())
      ensures fired == old(fired) + [next] && firedAt == old(firedAt) + [totalTicks]
      ensures DueCount(Pending(), totalTicks) < old(DueCount(Pending(), totalTicks))
    {
      hide History, OnTime, Lists.List.Valid;
      FireKeepsHistory(scheduled, fired, Pending(), totalTicks);
      FireOnTime(fired, firedAt, totalTicks, Pending()[0]);
      ghost var was := Pending();
      next := pending.RemoveFront();
      assert Pending() == was[1..];
      numFired, fired, firedAt := numFired + 1, fired + [next], firedAt + [totalTicks];
    }

    /** What a handler asks for. */
    method ScheduleAll(requests: seq<Delay>)
      requires Valid()
      modifies this`scheduled, this`numScheduled, pending, Elements()
      ensures Valid() && forall e :: e in Elements() ==> e in old(Elements()) || fresh(e)
      ensures scheduled == old(scheduled) + Requested(requests, totalTicks, |old(scheduled)|)
      ensures DueCount(Pending(), totalTicks) == old(DueCount(Pending(), totalTicks))
    {
      hide History, OnTime, DueCount, Lists.List.Valid;
      for i := 0 to |requests|
        invariant Valid() && forall e :: e in Elements() ==> e in old(Elements()) || fresh(e)
        invariant scheduled == old(scheduled) + Requested(requests[..i], totalTicks, |old(scheduled)|)
        invariant DueCount(Pending(), totalTicks) == old(DueCount(Pending(), totalTicks))
      {
        RequestedNext(requests, i, totalTicks, |old(scheduled)|);
        Schedule(requests[i]);
      }
      assert requests[..|requests|] == requests;
    }

    /** Calls the handlers of all due interrupts; with `advanceClock`, time first passes to the next one. */
    method CheckIfDue(advanceClock: bool) returns (any: bool)
      requires Valid() && level == IntOff && !inHandler
      modifies this, pending, Elements()
      ensures Valid() && forall e :: e in Elements() ==> e in old(Elements()) || fresh(e)
      ensures level == IntOff && !inHandler && status == old(status)
      ensures old(fired) <= fired && old(scheduled) <= scheduled && (any <==> |fired| > |old(fired)|)
      ensures forall p :: p in Pending() ==> p.when > totalTicks
      ensures any <==> old(Pending()) != [] && (advanceClock || old(Pending())[0].when <= old(totalTicks))
      ensures any ==> old(fired) + [old(Pending())[0]] <= fired
      ensures totalTicks == if any && old(Pending())[0].when > old(totalTicks) then old(Pending())[0].when
                            else old(totalTicks)
      ensures systemTicks == old(systemTicks) && userTicks == old(userTicks)
      ensures yieldOnReturn == (old(yieldOnReturn) || AskedSince(behave, fired, |old(fired)|))
    {
      hide History, OnTime, DueCount, AskedSince, Lists.List.Valid;
      NoneAsked(behave, fired);
      NoneDue(scheduled, fired, Pending(), totalTicks);
      if pending.IsEmpty() {
        return false;
      }
      var next := pending.Front();
      if next.when > totalTicks {
        if !advanceClock {
          return false;
        }
        LaterKeepsHistory(scheduled, fired, Pending(), totalTicks, next.when);
        LaterOnTime(fired, firedAt, totalTicks, next.when);
        idleTicks := idleTicks + (next.when - totalTicks);
        totalTicks := next.when;
      }
      inHandler := true;
      FireAllDue();
      inHandler := false;
      NoneDue(scheduled, fired, Pending(), totalTicks);
      return true;
    }

    method FireAllDue()
      requires Valid() && Pending() != [] && Pending()[0].when <= totalTicks && inHandler
      modifies this`scheduled, this`numScheduled, this`fired, this`firedAt, this`numFired, this`yieldOnReturn
      modifies pending, Elements()
      ensures Valid() && forall e :: e in Elements() ==> e in old(Elements()) || fresh(e)
      ensures old(fired) + [old(Pending())[0]] <= fired && old(scheduled) <= scheduled
      ensures Pending() == [] || Pending()[0].when > totalTicks
      ensures yieldOnReturn == (old(yieldOnReturn) || AskedSince(behave, fired, |old(fired)|))
    {
      hide History, OnTime, DueCount, AskedSince, Requested, Lists.List.Valid;
      AskedMore(behave, fired, |fired|, Pending()[0]);
      NoneAsked(behave, fired);
      Fire();
      while !pending.IsEmpty() && pending.Front().when <= totalTicks
        invariant Valid() && forall e :: e in Elements() ==> e in old(Elements()) || fresh(e)
        invariant old(fired) + [old(Pending())[0]] <= fired && old(scheduled) <= scheduled
        invariant yieldOnReturn == (old(yieldOnReturn) || AskedSince(behave, fired, |old(fired)|))
        decreases DueCount(Pending(), totalTicks)
      {
        AskedMore(behave, fired, |old(fired)|, Pending()[0]);
        Fire();
      }
    }

    /** Time passes, and the handlers of the interrupts that have become due are called. */
    method OneTick() returns (yielded: bool)
      requires Valid() && !inHandler
      modifies this, pending, Elements()
      ensures Valid() && forall e :: e in Elements() ==> e in old(Elements()) || fresh(e)
      ensures level == IntOn && !inHandler && !yieldOnReturn && status == old(status)
      ensures totalTicks == old(totalTicks) + if old(status) == SystemMode then SYSTEM_TICK else USER_TICK
      ensures idleTicks == old(idleTicks)
      ensures systemTicks == old(systemTicks) + if old(status) == SystemMode then SYSTEM_TICK else 0
      ensures yielded == (old(yieldOnReturn) || AskedSince(behave, fired, |old(fired)|))
      ensures old(fired) <= fired && old(scheduled) <= scheduled
      ensures forall p :: p in Pending() ==> p.when > totalTicks
    {
      hide History, OnTime, AskedSince, Lists.List.Valid;
      var tick := if status == SystemMode then SYSTEM_TICK else USER_TICK;
      LaterKeepsHistory(scheduled, fired, Pending(), totalTicks, totalTicks + tick);
      LaterOnTime(fired, firedAt, totalTicks, totalTicks + tick);
      if status == SystemMode {
        totalTicks, systemTicks := totalTicks + SYSTEM_TICK, systemTicks + SYSTEM_TICK;
      } else {
        totalTicks, userTicks := totalTicks + USER_TICK, userTicks + USER_TICK;
      }
      level := IntOff;
      var any := CheckIfDue(false);
      level := IntOn;
      yielded := yieldOnReturn;
      yieldOnReturn := false;
    }

    method SetLevel(now: IntStatus) returns (was: IntStatus)
      requires Valid() && (now == IntOff || !inHandler)
      modifies this, pending, Elements()
      ensures Valid() && forall e :: e in Elements() ==> e in old(Elements()) || fresh(e)
      ensures was == old(level) && level == now && inHandler == old(inHandler) && status == old(status)
      ensures old(fired) <= fired && old(scheduled) <= scheduled
      ensures now == IntOff || was == IntOn ==>
                totalTicks == old(totalTicks) && fired == old(fired) && Pending() == old(Pending())
      ensures now == IntOn && was == IntOff ==> forall p :: p in Pending() ==> p.when > totalTicks
    {
      hide History, OnTime, AskedSince, Lists.List.Valid;
      was := level;
      level := now;
      if now == IntOn && was == IntOff {
        var yielded := OneTick();
      }
    }

    /** With nothing to run, time passes to the next interrupt; without one the machine halts. */
    method Idle() returns (halted: bool)
      requires Valid() && level == IntOff && !inHandler
      modifies this, pending, Elements()
      ensures Valid() && (halted <==> old(Pending()) == [])
      ensures forall e :: e in Elements() ==> e in old(Elements()) || fresh(e)
      ensures !halted ==> && status == SystemMode && old(fired) + [old(Pending())[0]] <= fired
                          && forall p :: p in Pending() ==> p.when > totalTicks
    {
      hide History, OnTime, AskedSince, Lists.List.Valid;
      status := IdleMode;
      var any := CheckIfDue(true);
      if any {
        status := SystemMode;
        return false;
      }
      return true;
    }
  }

  /** A number that has not been given out is not on the list. */
  lemma NotPendingYet(scheduled: seq<PendingInterrupt>, fired: seq<PendingInterrupt>, pending: seq<PendingInterrupt>,
                      now: int, p: PendingInterrupt)
    requires History(scheduled, fired, pending, now) && p.id == |scheduled|
    ensures p !in pending
  {
  }

  lemma NoneAsked(behave: (nat, PendingInterrupt) -> Effect, fired: seq<PendingInterrupt>)
    ensures !AskedSince(behave, fired, |fired|)
  {
  }

  lemma FireOnTime(fired: seq<PendingInterrupt>, firedAt: seq<int>, now: int, p: PendingInterrupt)
    requires OnTime(fired, firedAt, now) && p.when <= now
    ensures OnTime(fired + [p], firedAt + [now], now)
  {
  }

  lemma LaterOnTime(fired: seq<PendingInterrupt>, firedAt: seq<int>, now: int, later: int)
    requires OnTime(fired, firedAt, now) && now <= later
    ensures OnTime(fired, firedAt, later)
  {
  }

  /** If the first pending interrupt is not due, none is. */
  lemma NoneDue(scheduled: seq<PendingInterrupt>, fired: seq<PendingInterrupt>, pending: seq<PendingInterrupt>, now: int)
    requires History(scheduled, fired, pending, now)
    ensures pending == [] || pending[0].when > now ==> forall p :: p in pending ==> p.when > now
  {
    HistorySorted(scheduled, fired, pending, now);
  }

  /** Handlers are called no earlier than their interrupt is due, and in the order of time. */
  ghost predicate OnTime(fired: seq<PendingInterrupt>, firedAt: seq<int>, now: int)
  {
    && |firedAt| == |fired|
    && (forall i :: 0 <= i < |fired| ==> fired[i].when <= firedAt[i] <= now)
    && (forall i, j :: 0 <= i < j < |fired| ==> firedAt[i] <= firedAt[j])
  }
}
