/** The synchronized list (threads/synchlist.cc) with its condition variable (threads/synch.cc), used by any number of
    producers and consumers. Each waiting consumer sleeps on a semaphore of its own. */
module SynchLists {
  import opened Locks
  import Runs
  import opened Sequences

  type Item = nat

  /** What a thread does when it has the lock. */
  datatype Act = Append(item: Item) | Signal | Wake(w: Tid) | Test | Take | Release(sleep: bool)

  /** `back`: the thread returns from Wait. `sleep`: it releases the lock inside Wait. */
  datatype Pc = Acquire(act: Act, back: bool) | Inside(act: Act) | Unlock(sleep: bool) | Sleep

  /** `waiter` has the value of the semaphore of each thread that is inside Wait. */
  datatype State = State(lock: Lock, list: seq<Item>, waitQueue: seq<Tid>, waiter: map<Tid, int>, pcs: map<Tid, Pc>,
                         appended: seq<Item>, removed: seq<Item>, asserts: bool)

  ghost predicate IsAt(v: State, t: Tid, pc: Pc)
  {
    t in v.pcs && v.pcs[t] == pc
  }

  // ---- the steps ----

  ghost predicate CallAppend(v: State, w: State, t: Tid, item: Item)
  {
    t !in v.pcs && w == v.(pcs := v.pcs[t := Acquire(Append(item), false)])
  }

  ghost predicate CallRemove(v: State, w: State, t: Tid)
  {
    t !in v.pcs && w == v.(pcs := v.pcs[t := Acquire(Test, false)])
  }

  ghost predicate TakeLock(v: State, w: State, t: Tid)
  {
    t in v.pcs && v.pcs[t].Acquire? && AcquireP(v.lock, w.lock, t) && w == v.(lock := w.lock)
  }

  /** The end of Acquire; in Wait, the semaphore is then deleted. */
  ghost predicate BecomeHolder(v: State, w: State, t: Tid)
  {
    && t in v.pcs && v.pcs[t].Acquire? && SetHolder(v.lock, w.lock, t)
    && w == v.(lock := w.lock, pcs := v.pcs[t := Inside(v.pcs[t].act)],
               waiter := if v.pcs[t].back then v.waiter - {t} else v.waiter)
  }

  /** The list asserts that the item is not on it. */
  ghost predicate DoAppend(v: State, w: State, t: Tid)
  {
    && t in v.pcs && v.pcs[t].Inside? && v.pcs[t].act.Append? && v.pcs[t].act.item !in v.list
    && var item := v.pcs[t].act.item;
       w == v.(list := v.list + [item], appended := v.appended + [item], pcs := v.pcs[t := Inside(Signal)])
  }

  /** Signal asserts that its caller has the lock. */
  ghost predicate DoSignal(v: State, w: State, t: Tid)
  {
    && IsAt(v, t, Inside(Signal))
    && var u := v.(asserts := v.asserts && v.lock.holder == Some(t));
       w == if v.waitQueue == [] then u.(pcs := v.pcs[t := Inside(Release(false))])
            else u.(waitQueue := v.waitQueue[1..], pcs := v.pcs[t := Inside(Wake(v.waitQueue[0]))])
  }

  ghost predicate DoWake(v: State, w: State, t: Tid)
  {
    && t in v.pcs && v.pcs[t].Inside? && v.pcs[t].act.Wake?
    && var u := v.pcs[t].act.w;
       w == v.(waiter := if u in v.waiter then v.waiter[u := v.waiter[u] + 1] else v.waiter,
               pcs := v.pcs[t := Inside(Release(false))], asserts := v.asserts && u in v.waiter)
  }

  /** So does Wait. */
  ghost predicate DoTest(v: State, w: State, t: Tid)
  {
    && IsAt(v, t, Inside(Test))
    && w == if v.list != [] then v.(pcs := v.pcs[t := Inside(Take)])
            else v.(waiter := v.waiter[t := 0], waitQueue := v.waitQueue + [t],
                    pcs := v.pcs[t := Inside(Release(true))],
                    asserts := v.asserts && v.lock.holder == Some(t) && t !in v.waitQueue)
  }

  ghost predicate DoTake(v: State, w: State, t: Tid)
  {
    && IsAt(v, t, Inside(Take))
    && w == if v.list == [] then v.(asserts := false)
            else v.(removed := v.removed + [v.list[0]], list := v.list[1..], pcs := v.pcs[t := Inside(Release(false))])
  }

  ghost predicate GiveUpHolder(v: State, w: State, t: Tid)
  {
    && t in v.pcs && v.pcs[t].Inside? && v.pcs[t].act.Release? && ClearHolder(v.lock, w.lock, t)
    && w == v.(lock := w.lock, pcs := v.pcs[t := Unlock(v.pcs[t].act.sleep)],
               asserts := v.asserts && v.lock.holder == Some(t))
  }

  ghost predicate GiveLock(v: State, w: State, t: Tid)
  {
    && t in v.pcs && v.pcs[t].Unlock? && ReleaseV(v.lock, w.lock, t)
    && w == v.(lock := w.lock, pcs := if v.pcs[t].sleep then v.pcs[t := Sleep] else v.pcs - {t})
  }

  ghost predicate WakeUp(v: State, w: State, t: Tid)
  {
    && IsAt(v, t, Sleep) && t in v.waiter && v.waiter[t] > 0
    && w == v.(waiter := v.waiter[t := v.waiter[t] - 1], pcs := v.pcs[t := Acquire(Test, true)])
  }

  ghost predicate LockStep(v: State, w: State, t: Tid)
  {
    TakeLock(v, w, t) || BecomeHolder(v, w, t) || GiveUpHolder(v, w, t) || GiveLock(v, w, t)
  }

  ghost predicate ListStep(v: State, w: State, t: Tid)
  {
    DoAppend(v, w, t) || DoSignal(v, w, t) || DoWake(v, w, t) || DoTest(v, w, t) || DoTake(v, w, t)
  }

  ghost predicate NextState(v: State, w: State)
  {
    || (exists t, item :: CallAppend(v, w, t, item))
    || (exists t :: CallRemove(v, w, t))
    || (exists t :: LockStep(v, w, t))
    || (exists t :: ListStep(v, w, t))
    || (exists t :: WakeUp(v, w, t))
  }

  ghost predicate Init(v: State)
  {
    v == State(FREE, [], [], map[], map[], [], [], true)
  }

  // ---- what every step keeps ----

  ghost function NeedOf(pc: Pc): Need
  {
    match pc
    case Acquire(_, _) => WantsLock
    case Inside(_) => HasLock
    case Unlock(_) => GivesLock
    case Sleep => NoLock
  }

  /** A thread has the lock where its program says so, and wants it only to append or to test. */
  ghost predicate LockedRight(v: State)
  {
    && Used(v.lock, v.pcs, NeedOf)
    && (forall t :: t in v.pcs && v.pcs[t].Acquire? ==>
          (v.pcs[t].act.Append? || v.pcs[t].act.Test?) && (v.pcs[t].back ==> v.pcs[t].act.Test?))
  }

  /** A thread is inside Wait. */
  ghost predicate Away(pc: Pc)
  {
    pc == Inside(Release(true)) || pc == Unlock(true) || pc.Sleep? || (pc.Acquire? && pc.back)
  }

  /** What the thread with the lock is about to do. */
  ghost function Acting(v: State): Option<Act>
  {
    if v.lock.holder.Some? && v.lock.holder.value in v.pcs && v.pcs[v.lock.holder.value].Inside?
    then Some(v.pcs[v.lock.holder.value].act) else None
  }

  /** The thread with the lock is about to do V on the semaphore of `t`. */
  ghost predicate Waking(v: State, t: Tid)
  {
    Acting(v) == Some(Wake(t))
  }

  /** The semaphore of a thread inside Wait: 0 while the thread is on the queue, then 1 once its signaller has done V. */
  ghost predicate WaiterRight(queued: bool, pc: Pc, value: int, waking: bool)
  {
    && Away(pc)
    && (if queued then value == 0 && !pc.Acquire? && !waking
        else if pc.Acquire? then value == 0 && !waking
        else value == if waking then 0 else 1)
  }

  ghost predicate Waiters(v: State)
  {
    && Distinct(v.waitQueue)
    && (forall t :: t in v.waitQueue ==> t in v.waiter)
    && (forall t :: t in v.pcs && Away(v.pcs[t]) ==> t in v.waiter)
    && (forall t :: t in v.waiter ==> t in v.pcs && WaiterRight(t in v.waitQueue, v.pcs[t], v.waiter[t], Waking(v, t)))
    && (forall t :: Waking(v, t) ==> t in v.waiter)
  }

  /** Consumers that have been signalled and do not have the lock back yet. */
  ghost function Signalled(v: State): set<Tid>
  {
    set t | t in v.waiter && t !in v.waitQueue
  }

  /** Someone is between an append and its signal, or between coming back and taking. */
  ghost predicate InBetween(v: State)
  {
    Acting(v).Some? && (Acting(v).value.Signal? || Acting(v).value.Test? || Acting(v).value.Take?)
  }

  /** While a consumer waits, there are no more items than consumers on their way to take them. */
  ghost predicate NoneStranded(v: State)
  {
    v.waitQueue != [] ==> |v.list| <= |Signalled(v)| + if InBetween(v) then 1 else 0
  }

  ghost predicate InOrder(v: State)
  {
    v.appended == v.removed + v.list && (Acting(v) == Some(Take) ==> v.list != [])
  }

  ghost predicate Inv(v: State)
  {
    v.asserts && LockedRight(v) && Waiters(v) && NoneStranded(v) && InOrder(v)
  }

  lemma InitInv(v: State)
    requires Init(v)
    ensures Inv(v)
  {
  }

  // ---- the lock ----

  lemma LockStepLocked(v: State, w: State, t: Tid)
    requires LockedRight(v) && LockStep(v, w, t)
    ensures LockedRight(w)
  {
    hide Used;
    LockStepIsUse(v, w, t);
    UseStepKeeps(v.lock, v.pcs, w.lock, w.pcs, t, NeedOf);
  }

  lemma LockStepIsUse(v: State, w: State, t: Tid)
    requires LockStep(v, w, t)
    ensures UseStep(v.lock, v.pcs, w.lock, w.pcs, t, NeedOf)
  {
  }

  /** The thread inside is the one that acts. */
  lemma InsideActs(v: State, t: Tid)
    requires LockedRight(v) && t in v.pcs && v.pcs[t].Inside?
    ensures Acting(v) == Some(v.pcs[t].act) && v.lock.holder == Some(t)
  {
    assert Meets(v.lock, t, NeedOf(v.pcs[t]));
  }

  lemma NobodyActs(v: State, t: Tid)
    requires LockedRight(v) && t in v.lock.inside && v.lock.inside[t] != Holding
    ensures Acting(v) == None && v.lock.holder == None
  {
    if v.lock.holder.Some? {
      assert At(v.lock, v.lock.holder.value, Holding);
      MutualExclusion(v.lock, t, v.lock.holder.value);
    }
  }

  lemma LockStepActs(v: State, w: State, t: Tid)
    requires LockedRight(v) && LockStep(v, w, t)
    ensures TakeLock(v, w, t) ==> Acting(w) == Acting(v)
    ensures BecomeHolder(v, w, t) ==> Acting(v) == None && Acting(w) == Some(v.pcs[t].act)
    ensures GiveUpHolder(v, w, t) ==> Acting(v) == Some(v.pcs[t].act) && Acting(w) == None && w.asserts == v.asserts
    ensures GiveLock(v, w, t) ==> Acting(v) == Acting(w) == None
  {
    hide LockedRight;
    LockStepLocked(v, w, t);
    if BecomeHolder(v, w, t) {
      NobodyActs(v, t);
      InsideActs(w, t);
    } else if GiveUpHolder(v, w, t) {
      InsideActs(v, t);
      NobodyActs(w, t);
    } else if GiveLock(v, w, t) {
      NobodyActs(v, t);
    }
  }

  // ---- who is inside Wait ----

  lemma WaiterIsAway(v: State, t: Tid)
    requires Waiters(v)
    ensures t in v.waiter <==> t in v.pcs && Away(v.pcs[t])
    ensures t in v.waiter ==> WaiterRight(t in v.waitQueue, v.pcs[t], v.waiter[t], Waking(v, t))
    ensures t in v.waitQueue ==> t in v.waiter
  {
    hide Waking;
  }

  /** A step of a thread outside Wait, or leaving it, by which nobody is signalled. */
  lemma WaitersLeft(v: State, w: State, t: Tid)
    requires Waiters(v) && w.waitQueue == v.waitQueue && OthersStay(v.pcs, w.pcs, t)
    requires forall u :: u in w.waiter <==> u in v.waiter && u != t
    requires forall u :: u in w.waiter ==> w.waiter[u] == v.waiter[u]
    requires t !in v.waitQueue && (t in w.pcs ==> !Away(w.pcs[t]))
    requires forall u :: Waking(v, u) == Waking(w, u) && !Waking(v, t)
    ensures Waiters(w)
  {
    hide Waking, Away, WaiterRight;
    forall u | u in w.waiter
      ensures u in w.pcs && WaiterRight(u in w.waitQueue, w.pcs[u], w.waiter[u], Waking(w, u))
    {
      assert u != t;
    }
  }

  /** A step of a thread inside Wait that stays there. */
  lemma WaitersMoved(v: State, w: State, t: Tid)
    requires Waiters(v) && w.waitQueue == v.waitQueue && OthersStay(v.pcs, w.pcs, t)
    requires forall u :: u in w.waiter <==> u in v.waiter
    requires forall u :: u in w.waiter && u != t ==> w.waiter[u] == v.waiter[u]
    requires t in w.waiter && t in w.pcs && WaiterRight(t in w.waitQueue, w.pcs[t], w.waiter[t], Waking(w, t))
    requires forall u :: u != t ==> Waking(v, u) == Waking(w, u)
    ensures Waiters(w)
  {
    hide Waking, Away, WaiterRight;
    forall u | u in w.waiter
      ensures u in w.pcs && WaiterRight(u in w.waitQueue, w.pcs[u], w.waiter[u], Waking(w, u))
    {
      if u != t {
        assert w.pcs[u] == v.pcs[u];
      }
    }
  }

  lemma SameSignalled(v: State, w: State)
    requires w.waitQueue == v.waitQueue && w.waiter.Keys == v.waiter.Keys
    ensures Signalled(w) == Signalled(v)
  {
    forall t ensures t in w.waiter <==> t in v.waiter {
      assert t in w.waiter.Keys <==> t in v.waiter.Keys;
    }
  }

  lemma TakeLockKeeps(v: State, w: State, t: Tid)
    requires Inv(v) && TakeLock(v, w, t)
    ensures w.asserts && Waiters(w) && NoneStranded(w) && InOrder(w)
  {
    LockStepActs(v, w, t);
    SameSignalled(v, w);
    hide LockedRight, Acting, WaiterRight, Away, Signalled;
  }

  lemma BecomeHolderWaiters(v: State, w: State, t: Tid)
    requires Inv(v) && BecomeHolder(v, w, t)
    ensures Waiters(w)
    ensures Signalled(w) == Signalled(v) - {t} && (!InBetween(w) ==> t !in Signalled(v))
  {
    hide LockedRight, Acting, NoneStranded, InOrder, Waiters, Signalled, InBetween;
    LockStepActs(v, w, t);
    NotWake(v, t);
    WaiterIsAway(v, t);
    WaitersLeft(v, w, t);
    HolderSignals(v, w, t);
  }

  lemma HolderSignals(v: State, w: State, t: Tid)
    requires BecomeHolder(v, w, t) && Acting(w) == Some(v.pcs[t].act) && t !in v.waitQueue
    requires t in v.waiter ==> v.pcs[t].back && v.pcs[t].act.Test?
    requires v.pcs[t].back ==> t in v.waiter
    ensures Signalled(w) == Signalled(v) - {t} && (!InBetween(w) ==> t !in Signalled(v))
  {
    hide Acting;
  }

  /** A thread that acquires the lock is about to append or to test. */
  lemma NotWake(v: State, t: Tid)
    requires LockedRight(v) && t in v.pcs && v.pcs[t].Acquire?
    ensures v.pcs[t].act.Append? || v.pcs[t].act.Test?
    ensures v.pcs[t].back ==> v.pcs[t].act.Test?
  {
  }

  lemma BecomeHolderKeeps(v: State, w: State, t: Tid)
    requires Inv(v) && BecomeHolder(v, w, t)
    ensures w.asserts && Waiters(w) && NoneStranded(w) && InOrder(w)
  {
    LockStepActs(v, w, t);
    BecomeHolderWaiters(v, w, t);
    NotWake(v, t);
    hide LockedRight, Acting, Waiters, Signalled;
  }

  /** Giving the lock back is no step of the list. */
  lemma GivesRest(v: State, w: State)
    requires v.asserts && NoneStranded(v) && InOrder(v) && w.asserts == v.asserts && w.list == v.list
    requires w.appended == v.appended && w.removed == v.removed && w.waitQueue == v.waitQueue
    requires Acting(v) in {None, Some(Release(false)), Some(Release(true))} && Acting(w) == None
    requires Signalled(w) == Signalled(v)
    ensures w.asserts && NoneStranded(w) && InOrder(w)
  {
    hide Acting, Signalled;
  }

  lemma GiveUpHolderKeeps(v: State, w: State, t: Tid)
    requires Inv(v) && GiveUpHolder(v, w, t)
    ensures w.asserts && Waiters(w) && NoneStranded(w) && InOrder(w)
  {
    hide LockedRight, Acting, Waiters, Signalled, NoneStranded, InOrder;
    LockStepActs(v, w, t);
    SameSignalled(v, w);
    WaiterIsAway(v, t);
    if v.pcs[t].act.sleep {
      WaitersMoved(v, w, t);
    } else {
      WaitersLeft(v, w, t);
    }
    hide OthersStay, Waking;
    GivesRest(v, w);
  }

  lemma GiveLockKeeps(v: State, w: State, t: Tid)
    requires Inv(v) && GiveLock(v, w, t)
    ensures w.asserts && Waiters(w) && NoneStranded(w) && InOrder(w)
  {
    hide LockedRight, Acting, Waiters, Signalled, NoneStranded, InOrder;
    LockStepActs(v, w, t);
    SameSignalled(v, w);
    WaiterIsAway(v, t);
    if v.pcs[t].sleep {
      WaitersMoved(v, w, t);
    } else {
      WaitersLeft(v, w, t);
    }
    hide OthersStay, Waking;
    GivesRest(v, w);
  }

  lemma LockStepKeeps(v: State, w: State, t: Tid)
    requires Inv(v) && LockStep(v, w, t)
    ensures Inv(w)
  {
    hide TakeLock, BecomeHolder, GiveUpHolder, GiveLock, LockedRight, Waiters, NoneStranded, InOrder;
    LockStepLocked(v, w, t);
    if TakeLock(v, w, t) {
      TakeLockKeeps(v, w, t);
    } else if BecomeHolder(v, w, t) {
      BecomeHolderKeeps(v, w, t);
    } else if GiveUpHolder(v, w, t) {
      GiveUpHolderKeeps(v, w, t);
    } else {
      GiveLockKeeps(v, w, t);
    }
  }

  // ---- the steps on the list ----

  /** The thread with the lock goes on to its next action. */
  lemma StaysInside(v: State, w: State, t: Tid)
    requires LockedRight(v) && ListStep(v, w, t) && (DoTake(v, w, t) ==> v.list != [])
    ensures LockedRight(w) && t in w.pcs && w.pcs[t].Inside? && w.lock == v.lock
    ensures Acting(v) == Some(v.pcs[t].act) && Acting(w) == Some(w.pcs[t].act) && v.lock.holder == Some(t)
    ensures OthersStay(v.pcs, w.pcs, t)
  {
    hide Used;
    InsideActs(v, t);
    ListStepMoves(v, w, t);
    UserMoves(v.lock, v.pcs, w.pcs, t, NeedOf);
    InsideActs(w, t);
  }

  /** A step on the list by which nobody is signalled and nobody joins the queue. */
  lemma NobodyWoken(v: State, w: State, t: Tid)
    requires Inv(v) && ListStep(v, w, t) && (DoTake(v, w, t) ==> v.list != [])
    requires w.waitQueue == v.waitQueue && w.waiter == v.waiter
    requires !v.pcs[t].act.Wake? && t in w.pcs && w.pcs[t].Inside? && !w.pcs[t].act.Wake? && !Away(w.pcs[t])
    ensures Waiters(w) && Signalled(w) == Signalled(v)
  {
    StaysInside(v, w, t);
    SameSignalled(v, w);
    hide LockedRight, Acting, Waiters, Signalled, ListStep, NoneStranded, InOrder;
    WaiterIsAway(v, t);
    WaitersLeft(v, w, t);
  }

  lemma ListStepMoves(v: State, w: State, t: Tid)
    requires ListStep(v, w, t) && (DoTake(v, w, t) ==> v.list != [])
    ensures t in v.pcs && t in w.pcs && v.pcs[t].Inside? && w.pcs[t].Inside? && w.lock == v.lock
    ensures OthersStay(v.pcs, w.pcs, t)
  {
  }

  lemma DoAppendRest(v: State, w: State, t: Tid)
    requires v.asserts && NoneStranded(v) && InOrder(v) && DoAppend(v, w, t)
    requires Acting(v) == Some(v.pcs[t].act) && Acting(w) == Some(w.pcs[t].act) && Signalled(w) == Signalled(v)
    ensures w.asserts && NoneStranded(w) && InOrder(w)
  {
    hide Acting, Signalled;
  }

  lemma DoAppendKeeps(v: State, w: State, t: Tid)
    requires Inv(v) && DoAppend(v, w, t)
    ensures Inv(w)
  {
    hide LockedRight, Acting, Waiters, Signalled, NoneStranded, InOrder, OthersStay;
    StaysInside(v, w, t);
    NobodyWoken(v, w, t);
    DoAppendRest(v, w, t);
  }

  lemma DoSignalWaiters(v: State, w: State, t: Tid)
    requires Inv(v) && DoSignal(v, w, t) && v.waitQueue != []
    ensures Waiters(w)
  {
    hide LockedRight, Acting, NoneStranded, InOrder, Waiters, Away, WaiterRight;
    StaysInside(v, w, t);
    SignalledRight(v, w, t);
  }

  lemma SignalledRight(v: State, w: State, t: Tid)
    requires Waiters(v) && DoSignal(v, w, t) && v.waitQueue != [] && OthersStay(v.pcs, w.pcs, t)
    requires forall x :: !Waking(v, x) && Waking(w, x) == (x == v.waitQueue[0])
    ensures Waiters(w)
  {
    hide Waking;
    HeadGone(v.waitQueue);
    WaiterIsAway(v, t);
    assert v.waitQueue[0] in v.waitQueue;
    forall x | x in w.waiter
      ensures x in w.pcs && WaiterRight(x in w.waitQueue, w.pcs[x], w.waiter[x], Waking(w, x))
    {
      WaiterIsAway(v, x);
    }
  }

  lemma DoSignalSignals(v: State, w: State, t: Tid)
    requires Inv(v) && DoSignal(v, w, t) && v.waitQueue != []
    ensures Signalled(w) == Signalled(v) + {v.waitQueue[0]} && v.waitQueue[0] !in Signalled(v)
  {
    hide LockedRight, NoneStranded, InOrder, WaiterRight;
    HeadGone(v.waitQueue);
    assert v.waitQueue[0] in v.waitQueue;
  }

  lemma DoSignalRest(v: State, w: State, t: Tid)
    requires v.asserts && NoneStranded(v) && InOrder(v) && DoSignal(v, w, t)
    requires Acting(v) == Some(Signal) && Acting(w) == Some(w.pcs[t].act) && v.lock.holder == Some(t)
    requires v.waitQueue != [] ==> Signalled(w) == Signalled(v) + {v.waitQueue[0]} && v.waitQueue[0] !in Signalled(v)
    ensures w.asserts && NoneStranded(w) && InOrder(w)
  {
    hide Acting, Signalled;
  }

  lemma DoSignalKeeps(v: State, w: State, t: Tid)
    requires Inv(v) && DoSignal(v, w, t)
    ensures Inv(w)
  {
    hide LockedRight, Acting, Waiters, Signalled, NoneStranded, InOrder, OthersStay;
    StaysInside(v, w, t);
    if v.waitQueue != [] {
      DoSignalWaiters(v, w, t);
      DoSignalSignals(v, w, t);
    } else {
      NobodyWoken(v, w, t);
    }
    DoSignalRest(v, w, t);
  }

  lemma DoWakeRest(v: State, w: State, t: Tid)
    requires v.asserts && NoneStranded(v) && InOrder(v) && DoWake(v, w, t) && v.pcs[t].act.w in v.waiter
    requires Acting(v) == Some(v.pcs[t].act) && Acting(w) == Some(w.pcs[t].act) && Signalled(w) == Signalled(v)
    ensures w.asserts && NoneStranded(w) && InOrder(w)
  {
    hide Acting, Signalled;
  }

  /** Whom the thread wakes is inside Wait, and it is not itself. */
  lemma WakesWaiter(v: State, t: Tid)
    requires Waiters(v) && t in v.pcs && v.pcs[t].Inside? && v.pcs[t].act.Wake? && Acting(v) == Some(v.pcs[t].act)
    ensures v.pcs[t].act.w in v.waiter && t !in v.waiter
  {
    hide Acting, WaiterRight;
    assert Waking(v, v.pcs[t].act.w);
    WaiterIsAway(v, t);
  }

  lemma DoWakeKeeps(v: State, w: State, t: Tid)
    requires Inv(v) && DoWake(v, w, t)
    ensures Inv(w)
  {
    hide LockedRight, Acting, Waiters, Signalled, NoneStranded, InOrder, OthersStay;
    StaysInside(v, w, t);
    WakesWaiter(v, t);
    var u := v.pcs[t].act.w;
    assert w.waiter.Keys == v.waiter.Keys;
    SameSignalled(v, w);
    WokenRight(v, w, t, u);
    DoWakeRest(v, w, t);
  }

  lemma WokenRight(v: State, w: State, t: Tid, u: Tid)
    requires Waiters(v) && DoWake(v, w, t) && u == v.pcs[t].act.w && u in v.waiter && t !in v.waiter
    requires forall x :: Waking(v, x) == (x == u) && !Waking(w, x)
    ensures Waiters(w)
  {
    hide Waking;
    forall x | x in w.waiter
      ensures x in w.pcs && WaiterRight(x in w.waitQueue, w.pcs[x], w.waiter[x], Waking(w, x))
    {
      WaiterIsAway(v, x);
      assert x != t && w.pcs[x] == v.pcs[x];
    }
  }

  lemma DoTestRest(v: State, w: State, t: Tid)
    requires v.asserts && NoneStranded(v) && InOrder(v) && DoTest(v, w, t)
    requires Acting(v) == Some(v.pcs[t].act) && Acting(w) == Some(w.pcs[t].act)
    requires v.lock.holder == Some(t) && t !in v.waitQueue && (v.list != [] ==> Signalled(w) == Signalled(v))
    ensures w.asserts && NoneStranded(w) && InOrder(w)
  {
    hide Acting, Signalled;
  }

  lemma DoTestKeeps(v: State, w: State, t: Tid)
    requires Inv(v) && DoTest(v, w, t)
    ensures Inv(w)
  {
    hide LockedRight, Acting, Waiters, Signalled, NoneStranded, InOrder, OthersStay;
    StaysInside(v, w, t);
    WaiterIsAway(v, t);
    if v.list != [] {
      NobodyWoken(v, w, t);
    } else {
      JoinsRight(v, w, t);
    }
    DoTestRest(v, w, t);
  }

  lemma JoinsRight(v: State, w: State, t: Tid)
    requires Waiters(v) && DoTest(v, w, t) && v.list == [] && t !in v.waiter && t !in v.waitQueue
    requires forall x :: !Waking(v, x) && !Waking(w, x)
    ensures Waiters(w)
  {
    hide Waking;
    forall x | x in w.waiter
      ensures x in w.pcs && WaiterRight(x in w.waitQueue, w.pcs[x], w.waiter[x], Waking(w, x))
    {
      if x != t {
        WaiterIsAway(v, x);
        assert x in w.waitQueue <==> x in v.waitQueue;
      }
    }
  }

  lemma DoTakeRest(v: State, w: State, t: Tid)
    requires v.asserts && NoneStranded(v) && InOrder(v) && DoTake(v, w, t)
    requires Acting(v) == Some(v.pcs[t].act) && Acting(w) == Some(w.pcs[t].act) && Signalled(w) == Signalled(v)
    ensures w.asserts && NoneStranded(w) && InOrder(w)
  {
    hide Acting, Signalled;
  }

  lemma TakeFindsItem(v: State, t: Tid)
    requires LockedRight(v) && InOrder(v) && IsAt(v, t, Inside(Take))
    ensures v.list != []
  {
    hide LockedRight, Acting;
    InsideActs(v, t);
  }

  lemma DoTakeKeeps(v: State, w: State, t: Tid)
    requires Inv(v) && DoTake(v, w, t)
    ensures Inv(w)
  {
    hide LockedRight, Acting, Waiters, Signalled, NoneStranded, InOrder, OthersStay;
    TakeFindsItem(v, t);
    StaysInside(v, w, t);
    NobodyWoken(v, w, t);
    DoTakeRest(v, w, t);
  }

  lemma ListStepKeeps(v: State, w: State, t: Tid)
    requires Inv(v) && ListStep(v, w, t)
    ensures Inv(w)
  {
    hide Inv, DoAppend, DoSignal, DoWake, DoTest, DoTake;
    if DoAppend(v, w, t) {
      DoAppendKeeps(v, w, t);
    } else if DoSignal(v, w, t) {
      DoSignalKeeps(v, w, t);
    } else if DoWake(v, w, t) {
      DoWakeKeeps(v, w, t);
    } else if DoTest(v, w, t) {
      DoTestKeeps(v, w, t);
    } else {
      DoTakeKeeps(v, w, t);
    }
  }

  // ---- the steps without the lock ----

  lemma NotHolder(v: State, t: Tid)
    requires LockedRight(v) && (t in v.pcs ==> v.pcs[t].Sleep?)
    ensures v.lock.holder != Some(t)
  {
    if t in v.pcs {
      assert Meets(v.lock, t, NeedOf(v.pcs[t]));
    }
  }

  lemma CallRest(v: State, w: State, t: Tid)
    requires v.asserts && NoneStranded(v) && InOrder(v)
    requires (exists item :: CallAppend(v, w, t, item)) || CallRemove(v, w, t)
    requires Acting(w) == Acting(v) && Signalled(w) == Signalled(v)
    ensures w.asserts && NoneStranded(w) && InOrder(w)
  {
    hide Acting, Signalled;
  }

  lemma CallWaiters(v: State, w: State, t: Tid)
    requires Waiters(v) && ((exists item :: CallAppend(v, w, t, item)) || CallRemove(v, w, t)) && Acting(w) == Acting(v)
    ensures Waiters(w) && Signalled(w) == Signalled(v)
  {
    hide Acting, Signalled;
    SameSignalled(v, w);
    WaiterIsAway(v, t);
    assert !Waking(v, t);
    hide Waiters;
    WaitersLeft(v, w, t);
  }

  lemma CallKeeps(v: State, w: State, t: Tid)
    requires Inv(v) && ((exists item :: CallAppend(v, w, t, item)) || CallRemove(v, w, t))
    ensures Inv(w)
  {
    CallActs(v, w, t);
    CallWaiters(v, w, t);
    hide LockedRight, Acting, Waiters, Signalled, NoneStranded, InOrder, CallAppend, CallRemove;
    CallRest(v, w, t);
  }

  lemma CallActs(v: State, w: State, t: Tid)
    requires Inv(v) && ((exists item :: CallAppend(v, w, t, item)) || CallRemove(v, w, t))
    ensures LockedRight(w) && Acting(w) == Acting(v) && forall u :: Waking(v, u) ==> u in v.waiter
  {
    hide Used, NoneStranded, InOrder, WaiterRight;
    UserMoves(v.lock, v.pcs, w.pcs, t, NeedOf);
    NotHolder(v, t);
  }

  lemma WakeUpActs(v: State, w: State, t: Tid)
    requires Inv(v) && WakeUp(v, w, t)
    ensures LockedRight(w) && Acting(w) == Acting(v)
  {
    hide Used, NoneStranded, InOrder, Waiters;
    UserMoves(v.lock, v.pcs, w.pcs, t, NeedOf);
    NotHolder(v, t);
  }

  lemma WakeUpKeeps(v: State, w: State, t: Tid)
    requires Inv(v) && WakeUp(v, w, t)
    ensures Inv(w)
  {
    WakeUpActs(v, w, t);
    WakeUpWaiters(v, w, t);
    hide LockedRight, Acting, Waiters, Signalled;
  }

  lemma WakeUpWaiters(v: State, w: State, t: Tid)
    requires Waiters(v) && WakeUp(v, w, t) && Acting(v) == Acting(w)
    ensures Waiters(w) && Signalled(w) == Signalled(v)
  {
    WaiterIsAway(v, t);
    hide Acting, Waiters, Signalled;
    assert w.waiter.Keys == v.waiter.Keys;
    SameSignalled(v, w);
    WaitersMoved(v, w, t);
  }

  lemma StepKeeps(v: State, w: State)
    requires Inv(v) && NextState(v, w)
    ensures Inv(w)
  {
    hide Inv, CallAppend, CallRemove, LockStep, ListStep, WakeUp;
    if t, item :| CallAppend(v, w, t, item) {
      CallKeeps(v, w, t);
    } else if t :| CallRemove(v, w, t) {
      CallKeeps(v, w, t);
    } else if t :| LockStep(v, w, t) {
      LockStepKeeps(v, w, t);
    } else if t :| ListStep(v, w, t) {
      ListStepKeeps(v, w, t);
    } else {
      var t :| WakeUp(v, w, t);
      WakeUpKeeps(v, w, t);
    }
  }

  ghost predicate IsListRun(run: seq<State>)
  {
    Runs.IsRun(run, v => Init(v), (v, w) => NextState(v, w))
  }

  lemma EveryStateOfEveryRun(run: seq<State>, n: nat)
    requires IsListRun(run) && n < |run|
    ensures Inv(run[n])
  {
    hide Init, NextState, Inv;
    forall v | Init(v) ensures Inv(v) {
      InitInv(v);
    }
    forall v, w | Inv(v) && NextState(v, w) ensures Inv(w) {
      StepKeeps(v, w);
    }
    Runs.InvariantHolds(run, v => Init(v), (v, w) => NextState(v, w), v => Inv(v), n);
  }

  /** In every interleaving the items removed are a prefix of those appended, and RemoveFront never meets an empty list.
      Whenever the lock is free, a consumer that waits implies that there are no more items than signalled consumers,
      and each of these can go on: its semaphore is up, or it only needs the lock. */
  lemma FirstInFirstOutNoneStranded(run: seq<State>, n: nat)
    requires IsListRun(run) && n < |run|
    ensures run[n].removed <= run[n].appended && run[n].asserts
    ensures run[n].lock.value == 1 && run[n].waitQueue != [] ==> |run[n].list| <= |Signalled(run[n])|
    ensures run[n].lock.value == 1 ==> forall t :: t in Signalled(run[n]) ==>
              t in run[n].pcs && ((run[n].pcs[t].Sleep? && run[n].waiter[t] == 1) || run[n].pcs[t] == Acquire(Test, true))
  {
    hide IsListRun;
    EveryStateOfEveryRun(run, n);
    var v := run[n];
    if v.lock.value == 1 {
      LockFree(v);
      forall t | t in Signalled(v)
        ensures t in v.pcs && ((v.pcs[t].Sleep? && v.waiter[t] == 1) || v.pcs[t] == Acquire(Test, true))
      {
        assert WaiterRight(t in v.waitQueue, v.pcs[t], v.waiter[t], Waking(v, t));
      }
    }
  }

  lemma LockFree(v: State)
    requires LockedRight(v) && v.lock.value == 1
    ensures Acting(v) == None
    ensures forall t :: t in v.pcs ==>
              !v.pcs[t].Inside? && !v.pcs[t].Unlock? && (v.pcs[t].Acquire? && v.pcs[t].back ==> v.pcs[t].act == Test)
  {
    assert |v.lock.inside| == 0;
    forall t | t in v.pcs ensures !v.pcs[t].Inside? && !v.pcs[t].Unlock? {
      assert Meets(v.lock, t, NeedOf(v.pcs[t]));
    }
  }
}
