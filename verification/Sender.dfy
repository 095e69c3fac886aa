/** The sending half of the post office (network/post.cc, PostOfficeOutput) on the network device (machine/network.cc,
    NetworkOutput), used by any number of threads of one machine. */
module Senders {
  import opened Locks
  import opened Mails
  import opened Sequences
  import Runs

  // ---- the device ----

  /** `outstanding` numbers the packets whose interrupt is scheduled, `fired` those whose interrupt has come. */
  datatype Device = Device(sendBusy: bool, outstanding: seq<nat>, fired: set<nat>, log: seq<Mail>, asserts: bool)

  const IDLE := Device(false, [], {}, [], true)

  /** NetworkOutput::Send on machine `host`. It tests sendBusy, and does not set it. */
  ghost predicate NetSend(v: Device, w: Device, m: Mail, host: int)
  {
    w == v.(outstanding := v.outstanding + [|v.log|], log := v.log + [m],
            asserts := v.asserts && !v.sendBusy && 0 < m.packet.length <= MAX_PACKET_SIZE && m.packet.from == host)
  }

  /** NetworkOutput::CallBack; interrupts scheduled with the same delay come in the order of scheduling. */
  ghost predicate NetDone(v: Device, w: Device)
  {
    v.outstanding != [] &&
    w == v.(sendBusy := false, outstanding := v.outstanding[1..], fired := v.fired + {v.outstanding[0]})
  }

  ghost predicate DeviceStep(v: Device, w: Device, host: int)
  {
    (exists m :: Sendable(m) && m.packet.from == host && NetSend(v, w, m, host)) || NetDone(v, w)
  }

  /** The assertion on sendBusy holds in every run of the device, also when sends overlap: it tells nothing. */
  lemma BusyIsNeverSeen(run: seq<Device>, host: int, n: nat)
    requires Runs.IsRun(run, v => v == IDLE, (v, w) => DeviceStep(v, w, host)) && n < |run|
    ensures !run[n].sendBusy && run[n].asserts
  {
    Runs.InvariantHolds(run, v => v == IDLE, (v, w) => DeviceStep(v, w, host),
                        (v: Device) => !v.sendBusy && v.asserts, n);
  }

  /** Two sends that overlap, on the device alone. */
  lemma OverlapUnnoticed(m: Mail) returns (v: Device, w: Device)
    requires Sendable(m)
    ensures DeviceStep(IDLE, v, m.packet.from) && DeviceStep(v, w, m.packet.from)
    ensures |w.outstanding| == 2 && w.asserts
  {
    v := IDLE.(outstanding := [0], log := [m]);
    w := v.(outstanding := [0, 1], log := [m, m]);
    assert NetSend(IDLE, v, m, m.packet.from) && NetSend(v, w, m, m.packet.from);
  }

  // ---- PostOfficeOutput::Send ----

  /** Which message a thread sends; `n` is the number of its packet in the order in which the device got them. */
  datatype Pc = Acquiring(m: Mail) | Locked(m: Mail)
              | Sent(m: Mail, n: nat) | Confirmed(m: Mail, n: nat) | Unlocking(m: Mail, n: nat)

  datatype State = State(host: int, lock: Lock, device: Device, messageSent: int, pcs: map<Tid, Pc>, asserts: bool)

  /** The assertions on the message, and the fields that Send fills in. */
  ghost predicate Call(v: State, w: State, t: Tid, m: Mail)
  {
    t !in v.pcs && Sendable(m) && m.packet.from == v.host && w == v.(pcs := v.pcs[t := Acquiring(m)])
  }

  ghost predicate TakeLock(v: State, w: State, t: Tid)
  {
    t in v.pcs && v.pcs[t].Acquiring? && AcquireP(v.lock, w.lock, t) && w == v.(lock := w.lock)
  }

  ghost predicate BecomeHolder(v: State, w: State, t: Tid)
  {
    && t in v.pcs && v.pcs[t].Acquiring? && SetHolder(v.lock, w.lock, t)
    && w == v.(lock := w.lock, pcs := v.pcs[t := Locked(v.pcs[t].m)])
  }

  ghost predicate Transmit(v: State, w: State, t: Tid)
  {
    && t in v.pcs && v.pcs[t].Locked? && NetSend(v.device, w.device, v.pcs[t].m, v.host)
    && w == v.(device := w.device, pcs := v.pcs[t := Sent(v.pcs[t].m, |v.device.log|)])
  }

  /** The interrupt, which does V on messageSent. */
  ghost predicate CallBack(v: State, w: State)
  {
    NetDone(v.device, w.device) && w == v.(device := w.device, messageSent := v.messageSent + 1)
  }

  ghost predicate AwaitSent(v: State, w: State, t: Tid)
  {
    && t in v.pcs && v.pcs[t].Sent? && v.messageSent > 0
    && w == v.(messageSent := v.messageSent - 1, pcs := v.pcs[t := Confirmed(v.pcs[t].m, v.pcs[t].n)])
  }

  ghost predicate GiveUpHolder(v: State, w: State, t: Tid)
  {
    && t in v.pcs && v.pcs[t].Confirmed? && ClearHolder(v.lock, w.lock, t)
    && w == v.(lock := w.lock, pcs := v.pcs[t := Unlocking(v.pcs[t].m, v.pcs[t].n)],
               asserts := v.asserts && v.lock.holder == Some(t))
  }

  ghost predicate GiveLock(v: State, w: State, t: Tid)
  {
    t in v.pcs && v.pcs[t].Unlocking? && ReleaseV(v.lock, w.lock, t) && w == v.(lock := w.lock, pcs := v.pcs - {t})
  }

  ghost predicate LockStep(v: State, w: State, t: Tid)
  {
    TakeLock(v, w, t) || BecomeHolder(v, w, t) || GiveUpHolder(v, w, t) || GiveLock(v, w, t)
  }

  /** Every step but the one that hands a packet to the device. */
  ghost predicate QuietStep(v: State, w: State)
  {
    || (exists t, m :: Call(v, w, t, m)) || (exists t :: LockStep(v, w, t))
    || CallBack(v, w) || (exists t :: AwaitSent(v, w, t))
  }

  ghost predicate NextState(v: State, w: State)
  {
    QuietStep(v, w) || exists t :: Transmit(v, w, t)
  }

  ghost predicate Init(v: State, host: int)
  {
    v == State(host, FREE, IDLE, 0, map[], true)
  }

  // ---- what every step keeps ----

  ghost function NeedOf(pc: Pc): Need
  {
    match pc
    case Acquiring(_) => WantsLock
    case Unlocking(_, _) => GivesLock
    case _ => HasLock
  }

  /** Packet `n` carries the thread's message. */
  ghost predicate Logged(d: Device, m: Mail, n: nat)
  {
    n < |d.log| && d.log[n] == m
  }

  ghost predicate Quiet(d: Device, messageSent: int)
  {
    d.outstanding == [] && messageSent == 0
  }

  /** Where a thread is in relation to the device. */
  ghost predicate InTouch(host: int, d: Device, messageSent: int, pc: Pc)
  {
    match pc
    case Acquiring(m) => Sendable(m) && m.packet.from == host
    case Locked(m) => Sendable(m) && m.packet.from == host && Quiet(d, messageSent)
    case Sent(m, n) => && Logged(d, m, n)
                       && (|| (d.outstanding == [n] && messageSent == 0 && n !in d.fired)
                           || (d.outstanding == [] && messageSent == 1 && n in d.fired))
    case Confirmed(m, n) => Logged(d, m, n) && n in d.fired && Quiet(d, messageSent)
    case Unlocking(m, n) => Logged(d, m, n) && n in d.fired && Quiet(d, messageSent)
  }

  /** Nobody has the lock and is about to use the device, or waits for it. */
  ghost predicate NobodySends(v: State)
  {
    forall t :: t in v.pcs ==> v.pcs[t].Acquiring?
  }

  ghost predicate DeviceRight(v: State)
  {
    && !v.device.sendBusy && v.device.asserts
    && (forall n :: n in v.device.fired ==> n < |v.device.log|)
    && (forall t :: t in v.pcs ==> InTouch(v.host, v.device, v.messageSent, v.pcs[t]))
    && (NobodySends(v) ==> Quiet(v.device, v.messageSent))
  }

  ghost predicate Inv(v: State)
  {
    v.asserts && Used(v.lock, v.pcs, NeedOf) && DeviceRight(v)
  }

  lemma InitInv(v: State, host: int)
    requires Init(v, host)
    ensures Inv(v)
  {
  }

  /** Only one thread is past its Acquire. */
  lemma Alone(v: State, t: Tid, u: Tid)
    requires Used(v.lock, v.pcs, NeedOf) && t in v.pcs && !v.pcs[t].Acquiring? && u in v.pcs && u != t
    ensures v.pcs[u].Acquiring?
  {
    hide Used;
    OnlyUser(v.lock, v.pcs, t, u, NeedOf);
  }

  lemma CallKeeps(v: State, w: State, t: Tid, m: Mail)
    requires Inv(v) && Call(v, w, t, m)
    ensures Inv(w)
  {
    hide Used, Sendable;
    UserMoves(v.lock, v.pcs, w.pcs, t, NeedOf);
    if NobodySends(w) {
      assert forall u :: u in v.pcs ==> w.pcs[u] == v.pcs[u];
    }
  }

  lemma LockStepKeeps(v: State, w: State, t: Tid)
    requires Inv(v) && LockStep(v, w, t)
    ensures Inv(w)
  {
    LockStepUses(v, w, t);
    hide Used, Sendable;
    UseStepKeeps(v.lock, v.pcs, w.lock, w.pcs, t, NeedOf);
    LockStepDevice(v, w, t);
  }

  lemma LockStepUses(v: State, w: State, t: Tid)
    requires Used(v.lock, v.pcs, NeedOf) && LockStep(v, w, t)
    ensures UseStep(v.lock, v.pcs, w.lock, w.pcs, t, NeedOf) && w.asserts == v.asserts
  {
    if GiveUpHolder(v, w, t) {
      assert Meets(v.lock, t, NeedOf(v.pcs[t]));
    }
  }

  lemma LockStepDevice(v: State, w: State, t: Tid)
    requires Used(v.lock, v.pcs, NeedOf) && DeviceRight(v) && LockStep(v, w, t)
    ensures DeviceRight(w)
  {
    hide Sendable, Used;
    if BecomeHolder(v, w, t) || TakeLock(v, w, t) {
      NobodyInside(v, w, t);
    } else {
      forall u | u in v.pcs && u != t ensures v.pcs[u].Acquiring? {
        Alone(v, t, u);
      }
    }
    forall u | u in w.pcs ensures InTouch(w.host, w.device, w.messageSent, w.pcs[u]) {
      assert InTouch(v.host, v.device, v.messageSent, v.pcs[u]);
    }
  }

  /** The lock is taken, or its holder set, only when nobody uses the device. */
  lemma NobodyInside(v: State, w: State, t: Tid)
    requires Used(v.lock, v.pcs, NeedOf) && (BecomeHolder(v, w, t) || TakeLock(v, w, t))
    ensures NobodySends(v)
  {
    forall u | u in v.pcs ensures v.pcs[u].Acquiring? {
      assert Meets(v.lock, u, NeedOf(v.pcs[u]));
      if !v.pcs[u].Acquiring? {
        assert u != t;
        MutualExclusion(v.lock, u, t);
        Alone(v, u, t);
      }
    }
  }

  lemma TransmitKeeps(v: State, w: State, t: Tid)
    requires Inv(v) && Transmit(v, w, t)
    ensures Inv(w)
  {
    hide Used;
    UserMoves(v.lock, v.pcs, w.pcs, t, NeedOf);
    assert InTouch(v.host, v.device, v.messageSent, v.pcs[t]);
    forall u | u in v.pcs && u != t ensures v.pcs[u].Acquiring? && InTouch(v.host, v.device, v.messageSent, v.pcs[u]) {
      Alone(v, t, u);
    }
    assert w.pcs[t].Sent?;
  }

  lemma CallBackKeeps(v: State, w: State)
    requires Inv(v) && CallBack(v, w)
    ensures Inv(w)
  {
    hide Used, Sendable;
    assert !NobodySends(v);
    var t :| t in v.pcs && !v.pcs[t].Acquiring?;
    assert InTouch(v.host, v.device, v.messageSent, v.pcs[t]);
    forall u | u in v.pcs && u != t ensures v.pcs[u].Acquiring? && InTouch(v.host, v.device, v.messageSent, v.pcs[u]) {
      Alone(v, t, u);
    }
  }

  lemma AwaitSentKeeps(v: State, w: State, t: Tid)
    requires Inv(v) && AwaitSent(v, w, t)
    ensures Inv(w)
  {
    hide Used, Sendable;
    UserMoves(v.lock, v.pcs, w.pcs, t, NeedOf);
    assert InTouch(v.host, v.device, v.messageSent, v.pcs[t]);
    forall u | u in v.pcs && u != t ensures v.pcs[u].Acquiring? && InTouch(v.host, v.device, v.messageSent, v.pcs[u]) {
      Alone(v, t, u);
    }
    assert !w.pcs[t].Acquiring?;
  }

  lemma StepKeeps(v: State, w: State)
    requires Inv(v) && NextState(v, w)
    ensures Inv(w) && w.host == v.host
  {
    hide Inv;
    if t :| Transmit(v, w, t) {
      TransmitKeeps(v, w, t);
    } else if t, m :| Call(v, w, t, m) {
      CallKeeps(v, w, t, m);
    } else if t :| LockStep(v, w, t) {
      LockStepKeeps(v, w, t);
    } else if CallBack(v, w) {
      CallBackKeeps(v, w);
    } else {
      var t :| AwaitSent(v, w, t);
      AwaitSentKeeps(v, w, t);
    }
  }

  ghost predicate IsSenderRun(run: seq<State>, host: int)
  {
    Runs.IsRun(run, v => Init(v, host), (v, w) => NextState(v, w))
  }

  lemma EveryStateOfEveryRun(run: seq<State>, host: int, n: nat)
    requires IsSenderRun(run, host) && n < |run|
    ensures Inv(run[n])
  {
    hide Init, NextState, Inv;
    forall v | Init(v, host) ensures Inv(v) {
      InitInv(v, host);
    }
    forall v, w | Inv(v) && NextState(v, w) ensures Inv(w) {
      StepKeeps(v, w);
    }
    Runs.InvariantHolds(run, v => Init(v, host), (v, w) => NextState(v, w), v => Inv(v), n);
  }

  /** In every interleaving at most one packet is between Send and its interrupt, messageSent is 0 or 1, no assertion
      fails, and a Send that is about to return has had its own interrupt. */
  lemma OneAtATime(run: seq<State>, host: int, n: nat)
    requires IsSenderRun(run, host) && n < |run|
    ensures |run[n].device.outstanding| + run[n].messageSent <= 1 && 0 <= run[n].messageSent
    ensures run[n].asserts && run[n].device.asserts
    ensures forall t :: t in run[n].pcs && run[n].pcs[t].Unlocking? ==>
              run[n].pcs[t].n in run[n].device.fired && Logged(run[n].device, run[n].pcs[t].m, run[n].pcs[t].n)
  {
    hide Init, NextState, Used, Sendable;
    EveryStateOfEveryRun(run, host, n);
    var v := run[n];
    forall t | t in v.pcs ensures InTouch(v.host, v.device, v.messageSent, v.pcs[t]) {
    }
    if !NobodySends(v) {
      var t :| t in v.pcs && !v.pcs[t].Acquiring?;
      assert InTouch(v.host, v.device, v.messageSent, v.pcs[t]);
    }
  }
}
