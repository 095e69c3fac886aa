/** Synchronous disk access (filesys/synchdisk.cc) by any number of threads, on top of the asynchronous disk
    (machine/disk.cc), which moves the data when the request is made and interrupts when it is done. */
module SynchDisks {
  import opened Locks
  import Runs
  import opened Sequences

  type Data = seq<int>

  datatype Request = Read(sector: nat) | Write(sector: nat, data: Data)

  /** `n` is the number of the request in the order in which the disk got them. */
  datatype Pc = Waiting(req: Request) | Locked(req: Request) | Issued(n: nat) | Completed(n: nat) | Unlocking(n: nat)

  /** A request as the disk got it, with what a read put into the buffer. */
  datatype Entry = Entry(t: Tid, req: Request, result: Data)

  datatype State = State(lock: Lock, done: int, active: bool, disk: map<nat, Data>, pcs: map<Tid, Pc>,
                         log: seq<Entry>, asserts: bool)

  ghost predicate Call(v: State, w: State, t: Tid, req: Request)
  {
    t !in v.pcs && req.sector in v.disk && w == v.(pcs := v.pcs[t := Waiting(req)])
  }

  /** The two halves of Acquire. */
  ghost predicate TakeLock(v: State, w: State, t: Tid)
  {
    t in v.pcs && v.pcs[t].Waiting? && AcquireP(v.lock, w.lock, t) && w == v.(lock := w.lock)
  }

  ghost predicate BecomeHolder(v: State, w: State, t: Tid)
  {
    && t in v.pcs && v.pcs[t].Waiting? && SetHolder(v.lock, w.lock, t)
    && w == v.(lock := w.lock, pcs := v.pcs[t := Locked(v.pcs[t].req)])
  }

  ghost predicate Issue(v: State, w: State, t: Tid)
  {
    && t in v.pcs && v.pcs[t].Locked? && v.pcs[t].req.sector in v.disk
    && var req := v.pcs[t].req;
       w == v.(active := true, pcs := v.pcs[t := Issued(|v.log|)],
               disk := if req.Read? then v.disk else v.disk[req.sector := req.data],
               log := v.log + [Entry(t, req, v.disk[req.sector])],
               asserts := v.asserts && !v.active)
  }

  /** The disk interrupt. */
  ghost predicate CallBack(v: State, w: State)
  {
    v.active && w == v.(active := false, done := v.done + 1)
  }

  ghost predicate AwaitDone(v: State, w: State, t: Tid)
  {
    && t in v.pcs && v.pcs[t].Issued? && v.done > 0
    && w == v.(done := v.done - 1, pcs := v.pcs[t := Completed(v.pcs[t].n)])
  }

  /** The two halves of Release; the request then returns. */
  ghost predicate GiveUpHolder(v: State, w: State, t: Tid)
  {
    && t in v.pcs && v.pcs[t].Completed? && ClearHolder(v.lock, w.lock, t)
    && w == v.(lock := w.lock, pcs := v.pcs[t := Unlocking(v.pcs[t].n)], asserts := v.asserts && v.lock.holder == Some(t))
  }

  ghost predicate GiveLock(v: State, w: State, t: Tid)
  {
    t in v.pcs && v.pcs[t].Unlocking? && ReleaseV(v.lock, w.lock, t) && w == v.(lock := w.lock, pcs := v.pcs - {t})
  }

  ghost predicate LockStep(v: State, w: State, t: Tid)
  {
    TakeLock(v, w, t) || BecomeHolder(v, w, t) || GiveUpHolder(v, w, t) || GiveLock(v, w, t)
  }

  ghost predicate NextState(v: State, w: State)
  {
    || (exists t, req :: Call(v, w, t, req))
    || (exists t :: LockStep(v, w, t))
    || (exists t :: Issue(v, w, t))
    || CallBack(v, w)
    || (exists t :: AwaitDone(v, w, t))
  }

  ghost predicate Init(v: State, disk: map<nat, Data>)
  {
    v == State(FREE, 0, false, disk, map[], [], true)
  }

  /** What the sector holds after the requests of `log`. */
  ghost function Contents(log: seq<Entry>, disk: map<nat, Data>, sector: nat): Data
    requires sector in disk
  {
    if log == [] then disk[sector]
    else var last := log[|log| - 1];
         if last.req.Write? && last.req.sector == sector then last.req.data
         else Contents(log[..|log| - 1], disk, sector)
  }

  ghost function NeedOf(pc: Pc): Need
  {
    match pc
    case Waiting(_) => WantsLock
    case Unlocking(_) => GivesLock
    case _ => HasLock
  }

  /** A thread has the lock exactly in the part of its request that needs it. */
  ghost predicate LockedRight(v: State)
  {
    Used(v.lock, v.pcs, NeedOf)
  }

  /** The disk is busy, or has signalled, exactly while a thread waits for it. */
  ghost predicate OneRequest(v: State)
  {
    && v.done >= 0 && (v.active ==> v.done == 0) && v.done <= 1
    && ((v.active || v.done == 1) <==> exists t :: t in v.pcs && v.pcs[t].Issued?)
  }

  /** Every read got what the sector held. */
  ghost predicate LogRight(log: seq<Entry>, now: map<nat, Data>, disk: map<nat, Data>)
  {
    && (forall s :: s in disk ==> s in now && now[s] == Contents(log, disk, s))
    && (forall i :: 0 <= i < |log| ==>
          log[i].req.sector in disk && log[i].result == Contents(log[..i], disk, log[i].req.sector))
  }

  /** A request in progress is about an existing sector, and has its entry in the log once the disk has it. */
  ghost predicate Recorded(log: seq<Entry>, disk: map<nat, Data>, t: Tid, pc: Pc)
  {
    if pc.Waiting? || pc.Locked? then pc.req.sector in disk else pc.n < |log| && log[pc.n].t == t
  }

  ghost predicate AllRecorded(v: State, disk: map<nat, Data>)
  {
    forall t :: t in v.pcs ==> Recorded(v.log, disk, t, v.pcs[t])
  }

  ghost predicate Inv(v: State, disk: map<nat, Data>)
  {
    v.asserts && LockedRight(v) && OneRequest(v) && v.disk.Keys == disk.Keys && LogRight(v.log, v.disk, disk) && AllRecorded(v, disk)
  }

  /** Only one thread is past its Acquire. */
  lemma Alone(v: State, t: Tid, u: Tid)
    requires LockedRight(v) && t in v.pcs && !v.pcs[t].Waiting? && u in v.pcs && u != t
    ensures v.pcs[u].Waiting?
  {
    hide Used;
    OnlyUser(v.lock, v.pcs, t, u, NeedOf);
  }

  lemma Moves(v: State, w: State, t: Tid)
    requires LockedRight(v) && w.lock == v.lock && t in w.pcs && w.pcs == v.pcs[t := w.pcs[t]]
    requires if t in v.pcs then !v.pcs[t].Waiting? && !v.pcs[t].Unlocking? && !w.pcs[t].Waiting? && !w.pcs[t].Unlocking?
             else w.pcs[t].Waiting?
    ensures LockedRight(w)
  {
    hide Used;
    UserMoves(v.lock, v.pcs, w.pcs, t, NeedOf);
  }

  lemma CallKeeps(v: State, w: State, t: Tid, req: Request, disk: map<nat, Data>)
    requires Inv(v, disk) && Call(v, w, t, req)
    ensures Inv(w, disk)
  {
    hide LogRight, LockedRight;
    Moves(v, w, t);
    IssuedSame(v, w);
  }

  lemma LockStepLocked(v: State, w: State, t: Tid)
    requires LockedRight(v) && LockStep(v, w, t)
    ensures LockedRight(w)
  {
    hide Used;
    UseStepKeeps(v.lock, v.pcs, w.lock, w.pcs, t, NeedOf);
  }

  lemma LockStepRequest(v: State, w: State, t: Tid)
    requires OneRequest(v) && LockStep(v, w, t)
    ensures OneRequest(w)
  {
    IssuedSame(v, w);
  }

  lemma LockStepRecorded(v: State, w: State, t: Tid, disk: map<nat, Data>)
    requires AllRecorded(v, disk) && LockStep(v, w, t)
    ensures AllRecorded(w, disk)
  {
    forall u | u in w.pcs ensures Recorded(w.log, disk, u, w.pcs[u]) {
      assert Recorded(v.log, disk, u, v.pcs[u]);
    }
  }

  lemma LockStepAsserts(v: State, w: State, t: Tid)
    requires LockedRight(v) && v.asserts && LockStep(v, w, t)
    ensures w.asserts && w.log == v.log && w.disk == v.disk
  {
    hide Meets;
  }

  lemma LockStepKeeps(v: State, w: State, t: Tid, disk: map<nat, Data>)
    requires Inv(v, disk) && LockStep(v, w, t)
    ensures Inv(w, disk)
  {
    hide LogRight, LockedRight, OneRequest, AllRecorded, LockStep;
    LockStepLocked(v, w, t);
    LockStepRequest(v, w, t);
    LockStepRecorded(v, w, t, disk);
    LockStepAsserts(v, w, t);
  }

  lemma IssuedSame(v: State, w: State)
    requires forall u :: (u in v.pcs && v.pcs[u].Issued?) <==> (u in w.pcs && w.pcs[u].Issued?)
    ensures (exists t :: t in v.pcs && v.pcs[t].Issued?) <==> (exists t :: t in w.pcs && w.pcs[t].Issued?)
  {
  }

  lemma CallBackKeeps(v: State, w: State, disk: map<nat, Data>)
    requires Inv(v, disk) && CallBack(v, w)
    ensures Inv(w, disk)
  {
    hide Used, LogRight, Recorded;
  }

  /** A thread that is past Acquire and not waiting for the disk finds it idle. */
  lemma DiskIdle(v: State, t: Tid)
    requires LockedRight(v) && OneRequest(v) && t in v.pcs && !v.pcs[t].Waiting? && !v.pcs[t].Issued?
    ensures !v.active && v.done == 0
  {
    hide LockedRight;
    forall u | u in v.pcs && u != t ensures !v.pcs[u].Issued? {
      Alone(v, t, u);
    }
  }

  lemma IssueKeeps(v: State, w: State, t: Tid, disk: map<nat, Data>)
    requires Inv(v, disk) && Issue(v, w, t)
    ensures Inv(w, disk)
  {
    hide LockedRight, LogRight;
    DiskIdle(v, t);
    Moves(v, w, t);
    assert w.pcs[t].Issued?;
    IssueLogs(v, w, t, disk);
  }

  lemma IssueLogs(v: State, w: State, t: Tid, disk: map<nat, Data>)
    requires LogRight(v.log, v.disk, disk) && AllRecorded(v, disk) && Issue(v, w, t)
    ensures LogRight(w.log, w.disk, disk)
  {
    var entry := w.log[|v.log|];
    assert w.log[..|v.log|] == v.log;
    forall i | 0 <= i < |w.log|
      ensures w.log[i].req.sector in disk && w.log[i].result == Contents(w.log[..i], disk, w.log[i].req.sector)
    {
      if i < |v.log| {
        assert w.log[i] == v.log[i] && w.log[..i] == v.log[..i];
      }
    }
  }

  lemma AwaitKeeps(v: State, w: State, t: Tid, disk: map<nat, Data>)
    requires Inv(v, disk) && AwaitDone(v, w, t)
    ensures Inv(w, disk)
  {
    hide LockedRight, LogRight;
    Moves(v, w, t);
    forall u | u in v.pcs && u != t ensures !v.pcs[u].Issued? {
      Alone(v, t, u);
    }
  }

  lemma StepKeeps(v: State, w: State, disk: map<nat, Data>)
    requires Inv(v, disk) && NextState(v, w)
    ensures Inv(w, disk)
  {
    hide Inv, Call, LockStep, Issue, CallBack, AwaitDone;
    if t, req :| Call(v, w, t, req) {
      CallKeeps(v, w, t, req, disk);
    } else if t :| LockStep(v, w, t) {
      LockStepKeeps(v, w, t, disk);
    } else if t :| Issue(v, w, t) {
      IssueKeeps(v, w, t, disk);
    } else if CallBack(v, w) {
      CallBackKeeps(v, w, disk);
    } else {
      var t :| AwaitDone(v, w, t);
      AwaitKeeps(v, w, t, disk);
    }
  }

  lemma InitInv(v: State, disk: map<nat, Data>)
    requires Init(v, disk)
    ensures Inv(v, disk)
  {
  }

  ghost predicate IsDiskRun(run: seq<State>, disk: map<nat, Data>)
  {
    Runs.IsRun(run, v => Init(v, disk), (v, w) => NextState(v, w))
  }

  lemma EveryStateOfEveryRun(run: seq<State>, disk: map<nat, Data>, n: nat)
    requires IsDiskRun(run, disk) && n < |run|
    ensures Inv(run[n], disk)
  {
    hide Init, NextState, Inv;
    forall v | Init(v, disk) ensures Inv(v, disk) {
      InitInv(v, disk);
    }
    forall v, w | Inv(v, disk) && NextState(v, w) ensures Inv(w, disk) {
      StepKeeps(v, w, disk);
    }
    Runs.InvariantHolds(run, v => Init(v, disk), (v, w) => NextState(v, w), v => Inv(v, disk), n);
  }

  /** In every interleaving: no request is made while one is active, and a read that returns brings what the last
      earlier write to its sector wrote, in the one order in which the disk got the requests. */
  lemma ReadsReturnLastWrite(run: seq<State>, disk: map<nat, Data>, k: nat, t: Tid)
    requires IsDiskRun(run, disk) && k < |run| && t in run[k].pcs && run[k].pcs[t].Unlocking?
    ensures var v, n := run[k], run[k].pcs[t].n;
            && v.asserts && n < |v.log| && v.log[n].t == t && v.log[n].req.sector in disk
            && v.log[n].result == Contents(v.log[..n], disk, v.log[n].req.sector)
  {
    hide Init, NextState, Contents, LockedRight, OneRequest;
    EveryStateOfEveryRun(run, disk, k);
  }
}
