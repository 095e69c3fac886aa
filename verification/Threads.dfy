/** Threads, the scheduler and semaphores (threads/thread.cc, threads/scheduler.cc, threads/synch.cc) as a step machine.
    A step runs with interrupts off up to the point where they are restored or the thread gives up the processor. */
module Threads {
  import Runs
  import opened Sequences

  type Tid = nat
  type Sid = nat

  datatype Level = Off | On

  /** Where a thread is. `Finishing` lasts from Finish until the thread is deleted. */
  datatype Place = Unforked | Ready | Running | Queued(sem: Sid) | Finishing

  /** Where a thread goes on when it runs. */
  datatype Pc = Outside | Starting | InP(sem: Sid, saved: Level) | InV(sem: Sid, saved: Level) | InYield(saved: Level)

  datatype Thread = Thread(place: Place, pc: Pc)

  /** `vs` and `ps` count the completed operations. */
  datatype Semaphore = Semaphore(value: int, queue: seq<Tid>, initial: nat, vs: nat, ps: nat)

  /** `Idling`: a thread has gone to sleep and there is no other to run yet. `Switched`: the thread has the processor
      but has not yet come back from the context switch. */
  datatype Current = Idling | Switched(t: Tid) | Executing(t: Tid)

  /** `asserts` stays true while no assertion of the code has failed. */
  datatype Kernel = Kernel(threads: map<Tid, Thread>, ready: seq<Tid>, sems: map<Sid, Semaphore>, current: Current,
                           dying: Option<Tid>, toBeDestroyed: Option<Tid>, level: Level, asserts: bool)

  // ---- the operations ----

  ghost predicate Exec(v: Kernel, t: Tid)
  {
    v.current == Executing(t) && t in v.threads && v.threads[t].pc == Outside
  }

  /** ReadyToRun, which asserts that interrupts are off. */
  ghost function MakeReady(v: Kernel, t: Tid, pc: Pc): Kernel
  {
    v.(threads := v.threads[t := Thread(Ready, pc)], ready := v.ready + [t],
       asserts := v.asserts && v.level == Off && t !in v.ready)
  }

  /** The part of P from the test of the value on; `saved` is the level at the call. Sleep asserts that interrupts are
      off. */
  ghost function TestP(v: Kernel, t: Tid, s: Sid, saved: Level): Kernel
    requires s in v.sems
  {
    var m := v.sems[s];
    if m.value == 0 then
      v.(threads := v.threads[t := Thread(Queued(s), InP(s, saved))],
         sems := v.sems[s := m.(queue := m.queue + [t])],
         current := Idling, asserts := v.asserts && v.level == Off && t !in m.queue)
    else
      v.(threads := v.threads[t := Thread(Running, Outside)],
         sems := v.sems[s := m.(value := m.value - 1, ps := m.ps + 1)],
         level := saved)
  }

  ghost function DoV(v: Kernel, s: Sid): Kernel
    requires s in v.sems && (v.sems[s].queue != [] ==> v.sems[s].queue[0] in v.threads)
  {
    var m := v.sems[s];
    if m.queue != [] then
      var t := m.queue[0];
      MakeReady(v.(sems := v.sems[s := m.(value := m.value + 1, vs := m.vs + 1, queue := m.queue[1..])]), t,
                v.threads[t].pc)
    else
      v.(sems := v.sems[s := m.(value := m.value + 1, vs := m.vs + 1)])
  }

  ghost predicate CallP(v: Kernel, w: Kernel, t: Tid, s: Sid)
  {
    Exec(v, t) && s in v.sems && w == TestP(v.(level := Off), t, s, v.level)
  }

  /** A thread that slept in P runs again, and tests the value again. */
  ghost predicate RetestP(v: Kernel, w: Kernel, t: Tid)
  {
    && v.current == Executing(t) && t in v.threads && v.threads[t].pc.InP? && v.threads[t].pc.sem in v.sems
    && w == TestP(v, t, v.threads[t].pc.sem, v.threads[t].pc.saved)
  }

  /** V saves the level and turns interrupts off ... */
  ghost predicate EnterV(v: Kernel, w: Kernel, t: Tid, s: Sid)
  {
    && Exec(v, t) && s in v.sems
    && w == v.(threads := v.threads[t := Thread(Running, InV(s, v.level))], level := Off)
  }

  /** ... and restores it after its work. */
  ghost predicate FinishV(v: Kernel, w: Kernel, t: Tid)
  {
    && v.current == Executing(t) && t in v.threads && v.threads[t].pc.InV?
    && var s := v.threads[t].pc.sem;
       && s in v.sems && (v.sems[s].queue != [] ==> v.sems[s].queue[0] in v.threads)
       && w == LeaveV(DoV(v, s), t, v.threads[t].pc.saved)
  }

  ghost function LeaveV(v: Kernel, t: Tid, saved: Level): Kernel
  {
    v.(threads := v.threads[t := Thread(Running, Outside)], level := saved)
  }

  /** An interrupt handler that calls V: while the machine idles, or between two steps of a thread with interrupts on.
      Handlers run with interrupts off. */
  ghost predicate HandlerV(v: Kernel, w: Kernel, s: Sid)
  {
    && (v.current.Idling? || (v.current.Executing? && v.level == On))
    && s in v.sems && (v.sems[s].queue != [] ==> v.sems[s].queue[0] in v.threads)
    && w == DoV(v.(level := Off), s).(level := v.level)
  }

  /** FindNextToRun, and Run up to the switch, with interrupts off. */
  ghost predicate Yield(v: Kernel, w: Kernel, t: Tid)
  {
    && Exec(v, t)
    && w == if v.ready == [] then v
            else var next := v.ready[0];
                 var u := MakeReady(v.(level := Off, ready := v.ready[1..]), t, InYield(v.level));
                 u.(threads := u.threads[next := Thread(Running, if next in v.threads then v.threads[next].pc
                                                                 else Starting)],
                    current := Switched(next))
  }

  ghost predicate Create(v: Kernel, w: Kernel, n: Tid)
  {
    v.current.Executing? && n !in v.threads && w == v.(threads := v.threads[n := Thread(Unforked, Starting)])
  }

  ghost predicate Fork(v: Kernel, w: Kernel, n: Tid)
  {
    && (v.current.Executing? && Exec(v, v.current.t))
    && n in v.threads && v.threads[n].place == Unforked
    && w == MakeReady(v.(level := Off), n, Starting).(level := v.level)
  }

  ghost predicate Finish(v: Kernel, w: Kernel, t: Tid)
  {
    && Exec(v, t)
    && w == v.(threads := v.threads[t := Thread(Finishing, Outside)], current := Idling, dying := Some(t), level := Off)
  }

  /** Run, up to the switch. */
  ghost predicate Dispatch(v: Kernel, w: Kernel)
  {
    && v.current.Idling? && v.ready != []
    && var next := v.ready[0];
       && next in v.threads
       && w == v.(threads := v.threads[next := v.threads[next].(place := Running)], ready := v.ready[1..],
                  current := Switched(next), dying := None,
                  toBeDestroyed := if v.dying.Some? then v.dying else v.toBeDestroyed,
                  asserts := v.asserts && v.level == Off && (v.dying.Some? ==> v.toBeDestroyed.None?))
  }

  /** After the switch: deletes the thread that finished; a new thread then turns interrupts on. */
  ghost predicate Resume(v: Kernel, w: Kernel, t: Tid)
  {
    && v.current == Switched(t) && t in v.threads
    && var pc := v.threads[t].pc;
       w == v.(threads := (if v.toBeDestroyed.Some? then v.threads - {v.toBeDestroyed.value} else v.threads)
                          [t := Thread(Running, if pc.InP? then pc else Outside)],
               current := Executing(t), toBeDestroyed := None,
               level := if pc.InYield? then pc.saved else if pc.Starting? then On else v.level,
               asserts := v.asserts && v.level == Off)
  }

  ghost predicate SetLevel(v: Kernel, w: Kernel, t: Tid, now: Level)
  {
    Exec(v, t) && w == v.(level := now)
  }

  ghost predicate NewSemaphore(v: Kernel, w: Kernel, s: Sid, initial: nat)
  {
    v.current.Executing? && s !in v.sems && w == v.(sems := v.sems[s := Semaphore(initial, [], initial, 0, 0)])
  }

  ghost predicate Step(v: Kernel, w: Kernel)
  {
    || (exists t, s :: CallP(v, w, t, s))
    || (exists t :: RetestP(v, w, t))
    || (exists t, s :: EnterV(v, w, t, s))
    || (exists t :: FinishV(v, w, t))
    || (exists s :: HandlerV(v, w, s))
    || (exists t :: Yield(v, w, t))
    || (exists n :: Create(v, w, n))
    || (exists n :: Fork(v, w, n))
    || (exists t :: Finish(v, w, t))
    || Dispatch(v, w)
    || (exists t :: Resume(v, w, t))
    || (exists t, now :: SetLevel(v, w, t, now))
    || (exists s, initial :: NewSemaphore(v, w, s, initial))
  }

  /** Only the main thread exists, and runs. */
  ghost predicate Init(v: Kernel)
  {
    exists main, level ::
      v == Kernel(map[main := Thread(Running, Outside)], [], map[], Executing(main), None, None, level, true)
  }

  // ---- what every step keeps ----

  // A thread's place says in which of the kernel's lists it is, and it is in no other and not twice.

  ghost predicate ReadyPlaces(v: Kernel)
  {
    && Distinct(v.ready)
    && (forall t :: t in v.ready <==> t in v.threads && v.threads[t].place == Ready)
  }

  ghost predicate QueuePlaces(v: Kernel)
  {
    && (forall s :: s in v.sems ==> Distinct(v.sems[s].queue))
    && (forall s, t :: s in v.sems ==> (t in v.sems[s].queue <==> t in v.threads && v.threads[t].place == Queued(s)))
    && (forall t :: t in v.threads && v.threads[t].place.Queued? ==> v.threads[t].place.sem in v.sems)
  }

  ghost predicate CurrentPlace(v: Kernel)
  {
    && (forall t :: t in v.threads ==> (v.threads[t].place == Running <==> !v.current.Idling? && v.current.t == t))
    && (!v.current.Idling? ==> v.current.t in v.threads)
  }

  /** A finished thread is kept until the next thread to run deletes it, and there is at most one. */
  ghost predicate Reaping(v: Kernel)
  {
    && (v.dying.Some? ==> v.current.Idling? && v.toBeDestroyed.None?)
    && (v.toBeDestroyed.Some? ==> v.current.Switched?)
    && (forall t ::
          t in v.threads && v.threads[t].place == Finishing <==> Some(t) == v.dying || Some(t) == v.toBeDestroyed)
  }

  /** Interrupts are on only while a thread runs outside of the kernel's operations. */
  ghost predicate LevelRight(v: Kernel)
  {
    v.level == On ==> v.current.Executing? && v.current.t in v.threads && v.threads[v.current.t].pc == Outside
  }

  /** What a thread does next fits where it is. */
  ghost predicate GoesOn(v: Kernel)
  {
    forall t :: t in v.threads ==>
      match v.threads[t].place
      case Unforked => v.threads[t].pc == Starting
      case Ready => v.threads[t].pc != Outside && !v.threads[t].pc.InV?
      case Running => if v.current.Switched? then v.threads[t].pc != Outside && !v.threads[t].pc.InV?
                      else v.threads[t].pc == Outside || v.threads[t].pc.InP? || v.threads[t].pc.InV?
      case Queued(s) => v.threads[t].pc.InP? && v.threads[t].pc.sem == s
      case Finishing => v.threads[t].pc == Outside
  }

  ghost predicate InPExists(v: Kernel)
  {
    forall t :: t in v.threads && v.threads[t].pc.InP? ==> v.threads[t].pc.sem in v.sems
  }

  /** Threads that were woken from the semaphore's queue and have not run since. */
  ghost function Woken(v: Kernel, s: Sid): set<Tid>
  {
    set t | t in v.threads && v.threads[t].pc.InP? && v.threads[t].pc.sem == s && !v.threads[t].place.Queued?
  }

  ghost predicate Counted(v: Kernel)
  {
    forall s :: s in v.sems ==>
      && v.sems[s].value == v.sems[s].initial + v.sems[s].vs - v.sems[s].ps && v.sems[s].value >= 0
      && (v.sems[s].queue != [] ==> v.sems[s].value <= |Woken(v, s)|)
  }

  ghost predicate Placed(v: Kernel)
  {
    v.asserts && ReadyPlaces(v) && CurrentPlace(v) && Reaping(v) && GoesOn(v) && LevelRight(v)
  }

  ghost predicate Inv(v: Kernel)
  {
    Placed(v) && QueuePlaces(v) && InPExists(v) && Counted(v)
  }

  lemma InitInv(v: Kernel)
    requires Init(v)
    ensures Inv(v)
  {
  }

  // The semaphore steps.

  ghost predicate AtTest(v: Kernel, t: Tid, s: Sid)
  {
    && v.current == Executing(t) && t in v.threads && s in v.sems
    && (v.threads[t].pc == Outside || (v.threads[t].pc.InP? && v.threads[t].pc.sem == s))
  }

  lemma TestPPlaces(v: Kernel, t: Tid, s: Sid, saved: Level)
    requires Inv(v) && AtTest(v, t, s) && v.level == Off
    ensures Placed(TestP(v, t, s, saved)) && InPExists(TestP(v, t, s, saved))
  {
    hide ReadyPlaces, CurrentPlace, Reaping, GoesOn, InPExists, Counted, Distinct;
    TestPReady(v, t, s, saved);
    TestPCurrent(v, t, s, saved);
    TestPGoesOn(v, t, s, saved);
  }

  lemma TestPReady(v: Kernel, t: Tid, s: Sid, saved: Level)
    requires Inv(v) && AtTest(v, t, s) && v.level == Off
    ensures TestP(v, t, s, saved).asserts && ReadyPlaces(TestP(v, t, s, saved))
  {
    hide Counted, Distinct, GoesOn, InPExists, Reaping, LevelRight;
  }

  lemma TestPCurrent(v: Kernel, t: Tid, s: Sid, saved: Level)
    requires Inv(v) && AtTest(v, t, s)
    ensures CurrentPlace(TestP(v, t, s, saved)) && Reaping(TestP(v, t, s, saved))
  {
    hide Counted, GoesOn, InPExists, ReadyPlaces, QueuePlaces, LevelRight;
  }

  lemma TestPGoesOn(v: Kernel, t: Tid, s: Sid, saved: Level)
    requires Inv(v) && AtTest(v, t, s)
    ensures GoesOn(TestP(v, t, s, saved)) && InPExists(TestP(v, t, s, saved))
  {
    hide Counted, ReadyPlaces, QueuePlaces, Reaping, LevelRight;
  }

  lemma TestPQueues(v: Kernel, t: Tid, s: Sid, saved: Level)
    requires Inv(v) && AtTest(v, t, s)
    ensures QueuePlaces(TestP(v, t, s, saved))
  {
    hide Counted, GoesOn, InPExists, Reaping, ReadyPlaces, LevelRight;
    var w := TestP(v, t, s, saved);
    assert v.threads[t].place == Running;
    forall r | r in w.sems ensures Distinct(w.sems[r].queue) && QueueHas(w, r) {
      assert QueueHas(v, r);
      TestPQueue(v, t, s, saved, r);
    }
    hide TestP;
    forall r, u | r in w.sems
      ensures u in w.sems[r].queue <==> u in w.threads && w.threads[u].place == Queued(r)
    {
      assert QueueHas(w, r);
    }
  }

  ghost predicate QueueHas(v: Kernel, s: Sid)
    requires s in v.sems
  {
    forall t :: t in v.sems[s].queue <==> t in v.threads && v.threads[t].place == Queued(s)
  }

  lemma TestPQueue(v: Kernel, t: Tid, s: Sid, saved: Level, r: Sid)
    requires r in v.sems && Distinct(v.sems[r].queue) && QueueHas(v, r)
    requires AtTest(v, t, s) && v.threads[t].place == Running
    ensures Distinct(TestP(v, t, s, saved).sems[r].queue) && QueueHas(TestP(v, t, s, saved), r)
  {
  }

  lemma TestPWoken(v: Kernel, t: Tid, s: Sid, saved: Level, r: Sid)
    requires Inv(v) && AtTest(v, t, s)
    ensures Woken(TestP(v, t, s, saved), r) == Woken(v, r) - {t}
    ensures t in Woken(v, r) ==> r == s
    ensures v.threads[t].pc == Outside ==> t !in Woken(v, s)
  {
    hide Counted, GoesOn, InPExists, Reaping, ReadyPlaces, QueuePlaces;
  }

  lemma TestPCounted(v: Kernel, t: Tid, s: Sid, saved: Level)
    requires Inv(v) && AtTest(v, t, s)
    ensures Counted(TestP(v, t, s, saved))
  {
    hide GoesOn, InPExists, Reaping, ReadyPlaces, QueuePlaces, CurrentPlace, Woken;
    forall r | r in v.sems ensures Woken(TestP(v, t, s, saved), r) == Woken(v, r) - {t} && (t in Woken(v, r) ==> r == s) {
      TestPWoken(v, t, s, saved, r);
    }
  }

  lemma DoVPlaces(v: Kernel, s: Sid)
    requires Inv(v) && s in v.sems && (v.sems[s].queue != [] ==> v.sems[s].queue[0] in v.threads) && v.level == Off
    ensures Placed(DoV(v, s)) && InPExists(DoV(v, s))
  {
    hide ReadyPlaces, CurrentPlace, Reaping, GoesOn, InPExists, Counted, QueuePlaces;
    DoVReady(v, s);
    DoVCurrent(v, s);
    DoVGoesOn(v, s);
  }

  lemma DoVReady(v: Kernel, s: Sid)
    requires Inv(v) && s in v.sems && (v.sems[s].queue != [] ==> v.sems[s].queue[0] in v.threads) && v.level == Off
    ensures DoV(v, s).asserts && ReadyPlaces(DoV(v, s))
  {
    hide Counted, GoesOn, InPExists, Reaping, CurrentPlace, LevelRight;
    if v.sems[s].queue != [] {
      assert v.sems[s].queue[0] in v.sems[s].queue;
    }
  }

  lemma DoVGoesOn(v: Kernel, s: Sid)
    requires Inv(v) && s in v.sems && (v.sems[s].queue != [] ==> v.sems[s].queue[0] in v.threads)
    ensures GoesOn(DoV(v, s)) && InPExists(DoV(v, s))
  {
    hide Counted, ReadyPlaces, LevelRight, CurrentPlace, Reaping;
    if v.sems[s].queue != [] {
      assert v.sems[s].queue[0] in v.sems[s].queue;
    }
  }

  lemma DoVCurrent(v: Kernel, s: Sid)
    requires Inv(v) && s in v.sems && (v.sems[s].queue != [] ==> v.sems[s].queue[0] in v.threads)
    ensures CurrentPlace(DoV(v, s)) && Reaping(DoV(v, s))
  {
    hide Counted, ReadyPlaces, LevelRight, GoesOn, InPExists, Distinct;
    if v.sems[s].queue != [] {
      assert v.sems[s].queue[0] in v.sems[s].queue;
      assert v.threads[v.sems[s].queue[0]].place == Queued(s);
      hide QueuePlaces;
    }
  }

  lemma DoVQueues(v: Kernel, s: Sid)
    requires Inv(v) && s in v.sems && (v.sems[s].queue != [] ==> v.sems[s].queue[0] in v.threads)
    ensures QueuePlaces(DoV(v, s))
  {
    hide Counted, GoesOn, InPExists, Reaping, ReadyPlaces, CurrentPlace;
    var q := v.sems[s].queue;
    if q != [] {
      HeadGone(q);
      assert q[0] in q;
    }
  }

  lemma DoVWoken(v: Kernel, s: Sid, r: Sid)
    requires Inv(v) && s in v.sems && (v.sems[s].queue != [] ==> v.sems[s].queue[0] in v.threads)
    ensures var q := v.sems[s].queue;
            if q != [] && r == s then Woken(DoV(v, s), r) == Woken(v, r) + {q[0]} && q[0] !in Woken(v, r)
            else Woken(DoV(v, s), r) == Woken(v, r)
  {
    hide Reaping, ReadyPlaces, CurrentPlace, Counted, InPExists;
    if v.sems[s].queue != [] {
      assert v.sems[s].queue[0] in v.sems[s].queue;
    }
  }

  lemma DoVCounted(v: Kernel, s: Sid)
    requires Inv(v) && s in v.sems && (v.sems[s].queue != [] ==> v.sems[s].queue[0] in v.threads)
    ensures Counted(DoV(v, s))
  {
    hide Reaping, ReadyPlaces, CurrentPlace, QueuePlaces, GoesOn, InPExists, Woken;
    DoVWoken(v, s, s);
    forall r | r in v.sems && r != s ensures Woken(DoV(v, s), r) == Woken(v, r) {
      DoVWoken(v, s, r);
    }
  }

  // The other steps leave the semaphores and whoever waits for them alone.

  ghost predicate WaitsFor(v: Kernel, t: Tid, s: Sid, queued: bool)
  {
    t in v.threads && v.threads[t].pc.InP? && v.threads[t].pc.sem == s && v.threads[t].place.Queued? == queued
  }

  ghost predicate SameWaiting(v: Kernel, w: Kernel)
  {
    w.sems == v.sems && forall t, s, queued :: WaitsFor(v, t, s, queued) == WaitsFor(w, t, s, queued)
  }

  lemma QueuedIsWaiting(v: Kernel, t: Tid, s: Sid)
    requires GoesOn(v)
    ensures t in v.threads && v.threads[t].place == Queued(s) <==> WaitsFor(v, t, s, true)
  {
  }

  lemma SameWaitingQueues(v: Kernel, w: Kernel)
    requires Inv(v) && GoesOn(w) && SameWaiting(v, w)
    ensures QueuePlaces(w)
  {
    hide ReadyPlaces, CurrentPlace, Reaping, GoesOn, WaitsFor, Distinct, Counted, InPExists;
    forall s, t | s in w.sems
      ensures t in w.sems[s].queue <==> t in w.threads && w.threads[t].place == Queued(s)
    {
      QueuedIsWaiting(v, t, s);
      QueuedIsWaiting(w, t, s);
    }
    forall t | t in w.threads && w.threads[t].place.Queued? ensures w.threads[t].place.sem in w.sems {
      QueuedIsWaiting(v, t, w.threads[t].place.sem);
      QueuedIsWaiting(w, t, w.threads[t].place.sem);
    }
  }

  lemma SameWaitingCounted(v: Kernel, w: Kernel)
    requires Inv(v) && SameWaiting(v, w)
    ensures InPExists(w) && Counted(w)
  {
    hide ReadyPlaces, QueuePlaces, CurrentPlace, Reaping, GoesOn, WaitsFor, Distinct, Woken;
    forall t | t in w.threads && w.threads[t].pc.InP? ensures w.threads[t].pc.sem in w.sems {
      InPIsWaiting(v, w, t);
    }
    forall s | s in w.sems ensures Woken(w, s) == Woken(v, s) {
      WokenIsWaiting(v, w, s);
    }
  }

  lemma InPIsWaiting(v: Kernel, w: Kernel, t: Tid)
    requires SameWaiting(v, w) && t in w.threads && w.threads[t].pc.InP?
    ensures t in v.threads && v.threads[t].pc.InP? && v.threads[t].pc.sem == w.threads[t].pc.sem
  {
    assert WaitsFor(w, t, w.threads[t].pc.sem, w.threads[t].place.Queued?);
  }

  lemma WokenIsWaiting(v: Kernel, w: Kernel, s: Sid)
    requires SameWaiting(v, w)
    ensures Woken(v, s) == Woken(w, s)
  {
    forall t ensures t in Woken(v, s) <==> t in Woken(w, s) {
      assert WaitsFor(v, t, s, false) == WaitsFor(w, t, s, false);
    }
  }

  lemma YieldKeeps(v: Kernel, w: Kernel, t: Tid)
    requires Inv(v) && Yield(v, w, t)
    ensures Placed(w) && SameWaiting(v, w)
  {
    hide ReadyPlaces, CurrentPlace, Reaping, GoesOn, SameWaiting, QueuePlaces, InPExists, Counted;
    YieldReady(v, w, t);
    YieldCurrent(v, w, t);
    YieldGoesOn(v, w, t);
    YieldWaiting(v, w, t);
  }

  lemma YieldReady(v: Kernel, w: Kernel, t: Tid)
    requires Inv(v) && Yield(v, w, t)
    ensures w.asserts && ReadyPlaces(w)
  {
    hide QueuePlaces, InPExists, Counted, Reaping, GoesOn, LevelRight;
  }

  lemma YieldCurrent(v: Kernel, w: Kernel, t: Tid)
    requires Inv(v) && Yield(v, w, t)
    ensures CurrentPlace(w) && Reaping(w)
  {
    hide QueuePlaces, InPExists, Counted, GoesOn, LevelRight;
  }

  lemma YieldGoesOn(v: Kernel, w: Kernel, t: Tid)
    requires Inv(v) && Yield(v, w, t)
    ensures GoesOn(w)
  {
    hide QueuePlaces, InPExists, Counted, Reaping, LevelRight;
  }

  lemma YieldWaiting(v: Kernel, w: Kernel, t: Tid)
    requires Inv(v) && Yield(v, w, t)
    ensures SameWaiting(v, w)
  {
    hide QueuePlaces, InPExists, Counted, Reaping, GoesOn, LevelRight;
  }

  lemma CreateKeeps(v: Kernel, w: Kernel, n: Tid)
    requires Inv(v) && Create(v, w, n)
    ensures Placed(w) && SameWaiting(v, w)
  {
    hide QueuePlaces, InPExists, Counted;
  }

  lemma ForkKeeps(v: Kernel, w: Kernel, n: Tid)
    requires Inv(v) && Fork(v, w, n)
    ensures Placed(w) && SameWaiting(v, w)
  {
    hide QueuePlaces, InPExists, Counted;
  }

  lemma FinishKeeps(v: Kernel, w: Kernel, t: Tid)
    requires Inv(v) && Finish(v, w, t)
    ensures Placed(w) && SameWaiting(v, w)
  {
    hide QueuePlaces, InPExists, Counted;
  }

  lemma DispatchKeeps(v: Kernel, w: Kernel)
    requires Inv(v) && Dispatch(v, w)
    ensures Placed(w) && SameWaiting(v, w)
  {
    hide QueuePlaces, InPExists, Counted;
  }

  lemma ResumeKeeps(v: Kernel, w: Kernel, t: Tid)
    requires Inv(v) && Resume(v, w, t)
    ensures Placed(w) && SameWaiting(v, w)
  {
    hide ReadyPlaces, CurrentPlace, Reaping, GoesOn, SameWaiting, QueuePlaces, InPExists, Counted;
    ResumePlaces(v, w, t);
    ResumeGoesOn(v, w, t);
  }

  lemma ResumePlaces(v: Kernel, w: Kernel, t: Tid)
    requires Inv(v) && Resume(v, w, t)
    ensures ReadyPlaces(w) && CurrentPlace(w) && Reaping(w)
  {
    hide QueuePlaces, InPExists, Counted, GoesOn, LevelRight, Distinct;
  }

  lemma ResumeGoesOn(v: Kernel, w: Kernel, t: Tid)
    requires Inv(v) && Resume(v, w, t)
    ensures GoesOn(w) && SameWaiting(v, w)
  {
    hide QueuePlaces, InPExists, Counted, ReadyPlaces, LevelRight;
  }

  lemma EnterVKeeps(v: Kernel, w: Kernel, t: Tid, s: Sid)
    requires Inv(v) && EnterV(v, w, t, s)
    ensures Placed(w) && SameWaiting(v, w)
  {
    hide QueuePlaces, InPExists, Counted;
  }

  /** Nothing but LevelRight depends on the level. */
  lemma SetLevelKeeps(v: Kernel, level: Level)
    requires Inv(v) && (level == On ==> LevelRight(v.(level := On)))
    ensures Inv(v.(level := level))
  {
    var w := v.(level := level);
    SameWaitingLevel(v, level);
    SamePlacesLevel(v, level);
    hide ReadyPlaces, CurrentPlace, Reaping, GoesOn, SameWaiting, QueuePlaces, InPExists, Counted;
    SameWaitingQueues(v, w);
    SameWaitingCounted(v, w);
  }

  lemma SamePlacesLevel(v: Kernel, level: Level)
    requires Inv(v)
    ensures var w := v.(level := level); ReadyPlaces(w) && CurrentPlace(w) && Reaping(w) && GoesOn(w)
  {
    hide QueuePlaces, InPExists, Counted, Distinct;
  }

  lemma SameWaitingLevel(v: Kernel, level: Level)
    ensures SameWaiting(v, v.(level := level))
  {
  }

  lemma LeaveVKeeps(v: Kernel, t: Tid, saved: Level)
    requires Inv(v) && v.current == Executing(t) && t in v.threads && v.threads[t].pc.InV?
    ensures var w := LeaveV(v, t, saved);
            Placed(w) && SameWaiting(v, w)
  {
    hide QueuePlaces, InPExists, Counted;
  }

  lemma FinishVKeeps(v: Kernel, w: Kernel, t: Tid)
    requires Inv(v) && FinishV(v, w, t)
    ensures Inv(w)
  {
    var s, saved := v.threads[t].pc.sem, v.threads[t].pc.saved;
    DoVPlaces(v, s);
    DoVQueues(v, s);
    DoVCounted(v, s);
    DoVKeepsRunning(v, s, t);
    hide ReadyPlaces, QueuePlaces, CurrentPlace, Reaping, GoesOn, InPExists, Counted, DoV, LeaveV, SameWaiting;
    LeaveVKeeps(DoV(v, s), t, saved);
    SameWaitingQueues(DoV(v, s), w);
    SameWaitingCounted(DoV(v, s), w);
  }

  lemma DoVKeepsRunning(v: Kernel, s: Sid, t: Tid)
    requires Inv(v) && s in v.sems && (v.sems[s].queue != [] ==> v.sems[s].queue[0] in v.threads)
    requires v.current == Executing(t) && t in v.threads
    ensures DoV(v, s).current == Executing(t) && t in DoV(v, s).threads && DoV(v, s).threads[t] == v.threads[t]
  {
    hide Counted, InPExists, Reaping, ReadyPlaces, GoesOn;
    if v.sems[s].queue != [] {
      assert v.sems[s].queue[0] in v.sems[s].queue;
    }
  }

  lemma NewSemaphoreKeeps(v: Kernel, w: Kernel, s: Sid, initial: nat)
    requires Inv(v) && NewSemaphore(v, w, s, initial)
    ensures Inv(w)
  {
    hide Placed, QueuePlaces, InPExists, Counted;
    NewSemaphorePlaces(v, w, s, initial);
    NewSemaphoreQueues(v, w, s, initial);
    NewSemaphoreCounted(v, w, s, initial);
  }

  lemma NewSemaphorePlaces(v: Kernel, w: Kernel, s: Sid, initial: nat)
    requires Inv(v) && NewSemaphore(v, w, s, initial)
    ensures Placed(w)
  {
    hide QueuePlaces, InPExists, Counted, Distinct;
  }

  lemma NewSemaphoreQueues(v: Kernel, w: Kernel, s: Sid, initial: nat)
    requires Inv(v) && NewSemaphore(v, w, s, initial)
    ensures QueuePlaces(w) && InPExists(w)
  {
    hide Placed, Counted;
  }

  lemma NewSemaphoreCounted(v: Kernel, w: Kernel, s: Sid, initial: nat)
    requires Inv(v) && NewSemaphore(v, w, s, initial)
    ensures Counted(w)
  {
    hide Placed, QueuePlaces, InPExists;
    forall r | r in v.sems ensures Woken(w, r) == Woken(v, r) {
    }
  }

  lemma CallPKeeps(v: Kernel, w: Kernel, t: Tid, s: Sid)
    requires Inv(v) && CallP(v, w, t, s)
    ensures Inv(w)
  {
    var u := v.(level := Off);
    hide ReadyPlaces, QueuePlaces, CurrentPlace, Reaping, GoesOn, LevelRight, InPExists, Counted, TestP;
    SetLevelKeeps(v, Off);
    TestPPlaces(u, t, s, v.level);
    TestPQueues(u, t, s, v.level);
    TestPCounted(u, t, s, v.level);
  }

  lemma RetestPKeeps(v: Kernel, w: Kernel, t: Tid)
    requires Inv(v) && RetestP(v, w, t)
    ensures Inv(w)
  {
    hide ReadyPlaces, QueuePlaces, CurrentPlace, Reaping, GoesOn, InPExists, Counted, TestP;
    var pc := v.threads[t].pc;
    TestPPlaces(v, t, pc.sem, pc.saved);
    TestPQueues(v, t, pc.sem, pc.saved);
    TestPCounted(v, t, pc.sem, pc.saved);
  }

  lemma HandlerVKeeps(v: Kernel, w: Kernel, s: Sid)
    requires Inv(v) && HandlerV(v, w, s)
    ensures Inv(w)
  {
    hide ReadyPlaces, QueuePlaces, CurrentPlace, Reaping, GoesOn, InPExists, Counted, DoV;
    var u := v.(level := Off);
    SetLevelKeeps(v, Off);
    DoVPlaces(u, s);
    DoVQueues(u, s);
    DoVCounted(u, s);
    if v.level == On {
      DoVKeepsRunning(u, s, v.current.t);
    }
    SetLevelKeeps(DoV(u, s), v.level);
  }

  lemma SemaphoreStepKeeps(v: Kernel, w: Kernel)
    requires Inv(v)
    requires (exists t, s :: CallP(v, w, t, s)) || (exists t :: RetestP(v, w, t))
             || (exists t :: FinishV(v, w, t)) || (exists s :: HandlerV(v, w, s))
    ensures Inv(w)
  {
    hide Inv, CallP, RetestP, FinishV, HandlerV;
    if t, s :| CallP(v, w, t, s) {
      CallPKeeps(v, w, t, s);
    } else if t :| RetestP(v, w, t) {
      RetestPKeeps(v, w, t);
    } else if t :| FinishV(v, w, t) {
      FinishVKeeps(v, w, t);
    } else {
      var s :| HandlerV(v, w, s);
      HandlerVKeeps(v, w, s);
    }
  }

  lemma OtherStepKeeps(v: Kernel, w: Kernel)
    requires Inv(v)
    requires (exists t :: Yield(v, w, t)) || (exists n :: Create(v, w, n)) || (exists n :: Fork(v, w, n))
             || (exists t :: Finish(v, w, t)) || Dispatch(v, w) || (exists t :: Resume(v, w, t))
             || (exists t, s :: EnterV(v, w, t, s))
    ensures Inv(w)
  {
    hide ReadyPlaces, QueuePlaces, CurrentPlace, Reaping, GoesOn, InPExists, Counted, SameWaiting;
    hide Yield, Create, Fork, Finish, Dispatch, Resume, EnterV;
    if t :| Yield(v, w, t) {
      YieldKeeps(v, w, t);
    } else if n :| Create(v, w, n) {
      CreateKeeps(v, w, n);
    } else if n :| Fork(v, w, n) {
      ForkKeeps(v, w, n);
    } else if t :| Finish(v, w, t) {
      FinishKeeps(v, w, t);
    } else if Dispatch(v, w) {
      DispatchKeeps(v, w);
    } else if t, s :| EnterV(v, w, t, s) {
      EnterVKeeps(v, w, t, s);
    } else {
      var t :| Resume(v, w, t);
      ResumeKeeps(v, w, t);
    }
    SameWaitingQueues(v, w);
    SameWaitingCounted(v, w);
  }

  lemma StepKeepsInv(v: Kernel, w: Kernel)
    requires Inv(v) && Step(v, w)
    ensures Inv(w)
  {
    hide ReadyPlaces, QueuePlaces, CurrentPlace, GoesOn, InPExists, Counted;
    hide Yield, Create, Fork, Finish, Dispatch, Resume, CallP, RetestP, EnterV, FinishV, HandlerV, NewSemaphore;
    if (exists t, s :: CallP(v, w, t, s)) || (exists t :: RetestP(v, w, t))
       || (exists t :: FinishV(v, w, t)) || (exists s :: HandlerV(v, w, s)) {
      SemaphoreStepKeeps(v, w);
    } else if t, now :| SetLevel(v, w, t, now) {
      SetLevelKeeps(v, now);
    } else if s, initial :| NewSemaphore(v, w, s, initial) {
      NewSemaphoreKeeps(v, w, s, initial);
    } else {
      OtherStepKeeps(v, w);
    }
  }

  ghost predicate IsKernelRun(run: seq<Kernel>)
  {
    Runs.IsRun(run, v => Init(v), (v, w) => Step(v, w))
  }

  /** In every reachable state every thread is in exactly one place, every semaphore's value is what its completed
      operations make it, and no assertion has failed. */
  lemma EveryStateOfEveryRun(run: seq<Kernel>, n: nat)
    requires IsKernelRun(run) && n < |run|
    ensures Inv(run[n])
  {
    hide Init, Step, Inv;
    forall v | Init(v) ensures Inv(v) {
      InitInv(v);
    }
    forall v, w | Inv(v) && Step(v, w) ensures Inv(w) {
      StepKeepsInv(v, w);
    }
    Runs.InvariantHolds(run, v => Init(v), (v, w) => Step(v, w), v => Inv(v), n);
  }

  // ---- consequences ----

  ghost predicate IsQueued(v: Kernel, t: Tid)
  {
    exists s :: s in v.sems && t in v.sems[s].queue
  }

  /** A live thread is in exactly one of the kernel's places, in its list once, and on at most one queue. */
  lemma ExactlyOnePlace(v: Kernel, t: Tid)
    requires Inv(v) && t in v.threads
    ensures var isCurrent, isReady, isNew, isOver :=
              !v.current.Idling? && v.current.t == t, t in v.ready, v.threads[t].place == Unforked,
              v.dying == Some(t) || v.toBeDestroyed == Some(t);
            && (isCurrent || isReady || isNew || isOver || IsQueued(v, t))
            && (isCurrent ==> !isReady && !isNew && !isOver && !IsQueued(v, t))
            && (isReady ==> !isNew && !isOver && !IsQueued(v, t))
            && (isNew ==> !isOver && !IsQueued(v, t)) && (isOver ==> !IsQueued(v, t))
    ensures forall r, s :: r in v.sems && s in v.sems && t in v.sems[r].queue && t in v.sems[s].queue ==> r == s
    ensures Distinct(v.ready) && forall s :: s in v.sems ==> Distinct(v.sems[s].queue)
  {
    hide Counted, GoesOn, InPExists, Distinct;
    if v.threads[t].place.Queued? {
      assert t in v.sems[v.threads[t].place.sem].queue;
    }
  }

  /** Seen from outside, a semaphore is left alone, gets one V, or gets one P when its value is positive. */
  ghost predicate AbstractStep(m: Semaphore, m': Semaphore)
  {
    && m'.initial == m.initial
    && (|| (m'.value == m.value && m'.ps == m.ps && m'.vs == m.vs)
        || (m'.value == m.value + 1 && m'.ps == m.ps && m'.vs == m.vs + 1)
        || (m.value > 0 && m'.value == m.value - 1 && m'.ps == m.ps + 1 && m'.vs == m.vs))
  }

  lemma TestPIsAbstract(v: Kernel, t: Tid, r: Sid, saved: Level, s: Sid)
    requires Counted(v) && r in v.sems && s in v.sems
    ensures s in TestP(v, t, r, saved).sems && AbstractStep(v.sems[s], TestP(v, t, r, saved).sems[s])
  {
  }

  lemma DoVIsAbstract(v: Kernel, r: Sid, s: Sid)
    requires r in v.sems && (v.sems[r].queue != [] ==> v.sems[r].queue[0] in v.threads) && s in v.sems
    ensures s in DoV(v, r).sems && AbstractStep(v.sems[s], DoV(v, r).sems[s])
  {
  }

  /** Every step of the kernel is an atomic step of every semaphore. */
  lemma SemaphoreStep(v: Kernel, w: Kernel, s: Sid)
    requires Inv(v) && Step(v, w) && s in v.sems
    ensures s in w.sems && AbstractStep(v.sems[s], w.sems[s])
  {
    hide ReadyPlaces, QueuePlaces, CurrentPlace, Reaping, GoesOn, InPExists, Counted, TestP, DoV, AbstractStep;
    hide Yield, Create, Fork, Finish, Dispatch, Resume, EnterV, NewSemaphore, SetLevel;
    if t, r :| CallP(v, w, t, r) {
      SetLevelKeeps(v, Off);
      TestPIsAbstract(v.(level := Off), t, r, v.level, s);
    } else if t :| RetestP(v, w, t) {
      TestPIsAbstract(v, t, v.threads[t].pc.sem, v.threads[t].pc.saved, s);
    } else if t :| FinishV(v, w, t) {
      DoVIsAbstract(v, v.threads[t].pc.sem, s);
    } else if r :| HandlerV(v, w, r) {
      DoVIsAbstract(v.(level := Off), r, s);
    } else {
      OthersKeepSemaphores(v, w, s);
    }
  }

  lemma OthersKeepSemaphores(v: Kernel, w: Kernel, s: Sid)
    requires s in v.sems
    requires (exists t :: Yield(v, w, t)) || (exists n :: Create(v, w, n)) || (exists n :: Fork(v, w, n))
             || (exists t :: Finish(v, w, t)) || Dispatch(v, w) || (exists t :: Resume(v, w, t))
             || (exists t, now :: SetLevel(v, w, t, now)) || (exists s, initial :: NewSemaphore(v, w, s, initial))
             || (exists t, s :: EnterV(v, w, t, s))
    ensures s in w.sems && AbstractStep(v.sems[s], w.sems[s])
  {
  }

  /** `t` is still in its P or V, or has left it with the processor and the level of its call. */
  ghost predicate LeavesWith(v: Kernel, w: Kernel, t: Tid)
    requires t in v.threads && (v.threads[t].pc.InP? || v.threads[t].pc.InV?)
  {
    && t in w.threads
    && (w.threads[t].pc == v.threads[t].pc
        || (w.threads[t].pc == Outside && w.current == Executing(t) && w.level == v.threads[t].pc.saved))
  }

  /** A thread in P or V stays in it, and when it leaves it has the processor and the level of its call. */
  lemma InUntilReturn(v: Kernel, w: Kernel, t: Tid)
    requires Inv(v) && Step(v, w) && t in v.threads && (v.threads[t].pc.InP? || v.threads[t].pc.InV?)
    ensures LeavesWith(v, w, t)
  {
    hide ReadyPlaces, InPExists, Counted, Inv, LeavesWith;
    hide Yield, Create, Fork, Finish, Dispatch, Resume, CallP, RetestP, EnterV, FinishV, HandlerV, NewSemaphore, SetLevel;
    if (exists u, s :: CallP(v, w, u, s)) || (exists u :: RetestP(v, w, u)) {
      PKeepsOthers(v, w, t);
    } else if (exists u :: FinishV(v, w, u)) || (exists s :: HandlerV(v, w, s)) {
      VKeepsOthers(v, w, t);
    } else {
      OthersKeepIn(v, w, t);
    }
  }

  lemma PKeepsOthers(v: Kernel, w: Kernel, t: Tid)
    requires t in v.threads && (v.threads[t].pc.InP? || v.threads[t].pc.InV?)
    requires (exists u, s :: CallP(v, w, u, s)) || (exists u :: RetestP(v, w, u))
    ensures LeavesWith(v, w, t)
  {
  }

  lemma VKeepsOthers(v: Kernel, w: Kernel, t: Tid)
    requires t in v.threads && (v.threads[t].pc.InP? || v.threads[t].pc.InV?)
    requires (exists u :: FinishV(v, w, u)) || (exists s :: HandlerV(v, w, s))
    ensures LeavesWith(v, w, t)
  {
  }

  lemma OthersKeepIn(v: Kernel, w: Kernel, t: Tid)
    requires Inv(v) && t in v.threads && (v.threads[t].pc.InP? || v.threads[t].pc.InV?)
    requires (exists t :: Yield(v, w, t)) || (exists n :: Create(v, w, n)) || (exists n :: Fork(v, w, n))
             || (exists t :: Finish(v, w, t)) || Dispatch(v, w) || (exists t :: Resume(v, w, t))
             || (exists t, now :: SetLevel(v, w, t, now)) || (exists s, initial :: NewSemaphore(v, w, s, initial))
             || (exists t, s :: EnterV(v, w, t, s))
    ensures LeavesWith(v, w, t)
  {
    hide Inv, Yield, Resume, LeavesWith;
    if u :| Resume(v, w, u) {
      ResumeKeepsIn(v, w, u, t);
    } else if u :| Yield(v, w, u) {
      YieldKeepsIn(v, w, u, t);
    } else {
      RestKeepIn(v, w, t);
    }
  }

  lemma ResumeKeepsIn(v: Kernel, w: Kernel, u: Tid, t: Tid)
    requires Inv(v) && t in v.threads && (v.threads[t].pc.InP? || v.threads[t].pc.InV?) && Resume(v, w, u)
    ensures LeavesWith(v, w, t)
  {
    hide ReadyPlaces, QueuePlaces, InPExists, Counted, LevelRight;
  }

  lemma YieldKeepsIn(v: Kernel, w: Kernel, u: Tid, t: Tid)
    requires Inv(v) && t in v.threads && (v.threads[t].pc.InP? || v.threads[t].pc.InV?) && Yield(v, w, u)
    ensures LeavesWith(v, w, t)
  {
    hide QueuePlaces, InPExists, Counted, LevelRight, CurrentPlace, Reaping, GoesOn;
  }

  lemma RestKeepIn(v: Kernel, w: Kernel, t: Tid)
    requires Inv(v) && t in v.threads && (v.threads[t].pc.InP? || v.threads[t].pc.InV?)
    requires (exists n :: Create(v, w, n)) || (exists n :: Fork(v, w, n)) || (exists t :: Finish(v, w, t))
             || Dispatch(v, w) || (exists t, now :: SetLevel(v, w, t, now))
             || (exists s, initial :: NewSemaphore(v, w, s, initial)) || (exists t, s :: EnterV(v, w, t, s))
    ensures LeavesWith(v, w, t)
  {
    hide ReadyPlaces, QueuePlaces, CurrentPlace, Reaping, InPExists, Counted, LevelRight;
  }

  /** P and V return with the interrupt level they were called with, however long the thread slept and whatever ran
      meanwhile. */
  lemma {:induction false} LevelRestored(run: seq<Kernel>, i: nat, j: nat, t: Tid, s: Sid)
    requires IsKernelRun(run) && i < j < |run| && (CallP(run[i], run[i + 1], t, s) || EnterV(run[i], run[i + 1], t, s))
    requires forall k :: i < k < j ==> t in run[k].threads && run[k].threads[t].pc != Outside
    ensures t in run[j].threads
    ensures || run[j].threads[t].pc == InP(s, run[i].level) || run[j].threads[t].pc == InV(s, run[i].level)
            || (run[j].threads[t].pc == Outside && run[j].current == Executing(t) && run[j].level == run[i].level)
    decreases j
  {
    hide Step, Inv;
    if j == i + 1 {
      hide Runs.IsRun;
    } else {
      LevelRestored(run, i, j - 1, t, s);
      EveryStateOfEveryRun(run, j - 1);
      assert Step(run[j - 1], run[j]);
      InUntilReturn(run[j - 1], run[j], t);
    }
  }
}
