/** Locks made of a semaphore (threads/synch.cc). The semaphore's P and V are atomic steps. */
module Locks {
  import Runs
  import opened Sequences

  type Tid = nat

  /** Where a thread is between the P of Acquire and the V of Release. */
  datatype Stage = TookSemaphore | Holding | ClearedHolder

  /** `inside` has every thread that is past the P of its Acquire and before the V of its Release. */
  datatype Lock = Lock(value: int, holder: Option<Tid>, inside: map<Tid, Stage>)

  const FREE := Lock(1, None, map[])

  ghost predicate At(v: Lock, t: Tid, stage: Stage)
  {
    t in v.inside && v.inside[t] == stage
  }

  ghost predicate AcquireP(v: Lock, w: Lock, t: Tid)
  {
    v.value > 0 && w == v.(value := v.value - 1, inside := v.inside[t := TookSemaphore])
  }

  ghost predicate SetHolder(v: Lock, w: Lock, t: Tid)
  {
    At(v, t, TookSemaphore) && w == v.(holder := Some(t), inside := v.inside[t := Holding])
  }

  ghost predicate ClearHolder(v: Lock, w: Lock, t: Tid)
  {
    At(v, t, Holding) && w == v.(holder := None, inside := v.inside[t := ClearedHolder])
  }

  ghost predicate ReleaseV(v: Lock, w: Lock, t: Tid)
  {
    At(v, t, ClearedHolder) && w == v.(value := v.value + 1, inside := v.inside - {t})
  }

  ghost predicate Step(v: Lock, w: Lock, t: Tid)
  {
    AcquireP(v, w, t) || SetHolder(v, w, t) || ClearHolder(v, w, t) || ReleaseV(v, w, t)
  }

  ghost predicate Inv(v: Lock)
  {
    && v.value >= 0 && v.value + |v.inside| == 1
    && (forall t: Tid :: v.holder == Some(t) <==> At(v, t, Holding))
  }

  lemma SetSize(s: set<Tid>, t: Tid, u: Tid)
    requires |s| <= 1 && t in s && u in s
    ensures t == u
  {
    if t != u {
      assert {t, u} <= s;
      SubsetSize({t, u}, s);
    }
  }

  lemma {:induction false} SubsetSize(s: set<Tid>, r: set<Tid>)
    requires s <= r
    ensures |s| <= |r|
  {
    if s != {} {
      var x :| x in s;
      SubsetSize(s - {x}, r - {x});
    }
  }

  /** At most one thread is between Acquire and Release, and the holder, when set, is that thread. */
  lemma MutualExclusion(v: Lock, t: Tid, u: Tid)
    requires Inv(v) && t in v.inside
    ensures u in v.inside ==> t == u
    ensures v.holder == Some(u) ==> t == u
    ensures v.value == 0
  {
    assert |v.inside.Keys| == |v.inside|;
    if u in v.inside {
      SetSize(v.inside.Keys, t, u);
    }
    SubsetSize({t}, v.inside.Keys);
  }

  lemma StepKeepsInv(v: Lock, w: Lock, t: Tid)
    requires Inv(v) && Step(v, w, t)
    ensures Inv(w)
  {
    if AcquireP(v, w, t) {
      assert v.inside.Keys == {};
      assert w.inside.Keys == {t};
    } else {
      MutualExclusion(v, t, t);
      forall u | u in v.inside ensures u == t {
        MutualExclusion(v, t, u);
      }
      assert v.inside.Keys == {t};
      if ReleaseV(v, w, t) {
        assert w.inside.Keys == {};
      } else {
        assert w.inside.Keys == {t};
      }
    }
  }

  ghost predicate IsLockRun(run: seq<Lock>)
  {
    Runs.IsRun(run, v => v == FREE, (v, w) => exists t :: Step(v, w, t))
  }

  /** However threads interleave their calls of Acquire and Release. */
  lemma EveryStateOfEveryRun(run: seq<Lock>, n: nat)
    requires IsLockRun(run) && n < |run|
    ensures Inv(run[n])
  {
    hide Step, Inv;
    InitInv();
    forall v, w | Inv(v) && exists t :: Step(v, w, t) ensures Inv(w) {
      var t :| Step(v, w, t);
      StepKeepsInv(v, w, t);
    }
    Runs.InvariantHolds(run, v => v == FREE, (v, w) => exists t :: Step(v, w, t), v => Inv(v), n);
  }

  lemma InitInv()
    ensures Inv(FREE)
  {
  }

  // ---- programs that use the lock ----

  /** What a program counter says about the lock: not used, being acquired, held, or being released. */
  datatype Need = NoLock | WantsLock | HasLock | GivesLock

  ghost predicate Meets(v: Lock, t: Tid, need: Need)
  {
    match need
    case NoLock => t !in v.inside
    case WantsLock => At(v, t, TookSemaphore) || t !in v.inside
    case HasLock => At(v, t, Holding)
    case GivesLock => At(v, t, ClearedHolder)
  }

  /** Every thread has the lock exactly where its program counter says so. */
  ghost predicate Used<Pc>(v: Lock, pcs: map<Tid, Pc>, need: Pc -> Need)
  {
    && Inv(v) && (forall t :: t in v.inside ==> t in pcs)
    && (forall t :: t in pcs ==> Meets(v, t, need(pcs[t])))
  }

  ghost predicate OthersStay<Pc>(pcs: map<Tid, Pc>, pcs': map<Tid, Pc>, t: Tid)
  {
    forall u :: u != t ==> (u in pcs <==> u in pcs') && (u in pcs ==> pcs'[u] == pcs[u])
  }

  /** Thread `t` takes one of the four steps at a place where its program does. */
  ghost predicate UseStep<Pc>(v: Lock, pcs: map<Tid, Pc>, w: Lock, pcs': map<Tid, Pc>, t: Tid, need: Pc -> Need)
  {
    && t in pcs && OthersStay(pcs, pcs', t)
    && (|| (AcquireP(v, w, t) && need(pcs[t]) == WantsLock && t in pcs' && pcs'[t] == pcs[t])
        || (SetHolder(v, w, t) && need(pcs[t]) == WantsLock && t in pcs' && need(pcs'[t]) == HasLock)
        || (ClearHolder(v, w, t) && need(pcs[t]) == HasLock && t in pcs' && need(pcs'[t]) == GivesLock)
        || (ReleaseV(v, w, t) && need(pcs[t]) == GivesLock && (t in pcs' ==> need(pcs'[t]) == NoLock)))
  }

  lemma UseStepKeeps<Pc>(v: Lock, pcs: map<Tid, Pc>, w: Lock, pcs': map<Tid, Pc>, t: Tid, need: Pc -> Need)
    requires Used(v, pcs, need) && UseStep(v, pcs, w, pcs', t, need)
    ensures Used(w, pcs', need)
  {
    hide Inv;
    StepKeepsInv(v, w, t);
    UserAt(v, pcs, w, pcs', t, need);
    hide UseStep;
    assert Step(v, w, t) && OthersStay(pcs, pcs', t);
    hide Step, Meets;
    forall u | u in w.inside ensures u in pcs' {
      if u != t {
        OthersAt(v, w, t, u);
      }
    }
    forall u | u in pcs' && u != t ensures Meets(w, u, need(pcs'[u])) {
      assert Meets(v, u, need(pcs[u]));
      OthersMeet(v, w, t, u, need(pcs[u]));
    }
  }

  lemma UserAt<Pc>(v: Lock, pcs: map<Tid, Pc>, w: Lock, pcs': map<Tid, Pc>, t: Tid, need: Pc -> Need)
    requires UseStep(v, pcs, w, pcs', t, need)
    ensures Step(v, w, t) && OthersStay(pcs, pcs', t)
    ensures t in w.inside ==> t in pcs'
    ensures t in pcs' ==> Meets(w, t, need(pcs'[t]))
  {
  }

  lemma OthersMeet(v: Lock, w: Lock, t: Tid, u: Tid, need: Need)
    requires Step(v, w, t) && u != t && Meets(v, u, need)
    ensures Meets(w, u, need)
  {
    OthersAt(v, w, t, u);
  }

  lemma OthersAt(v: Lock, w: Lock, t: Tid, u: Tid)
    requires Step(v, w, t) && u != t
    ensures u in w.inside <==> u in v.inside
    ensures u in v.inside ==> w.inside[u] == v.inside[u]
  {
  }

  /** A step on something else. */
  lemma UserMoves<Pc>(v: Lock, pcs: map<Tid, Pc>, pcs': map<Tid, Pc>, t: Tid, need: Pc -> Need)
    requires Used(v, pcs, need) && OthersStay(pcs, pcs', t) && t in pcs'
    requires if t in pcs then need(pcs'[t]) == need(pcs[t]) || (need(pcs[t]) == NoLock && need(pcs'[t]) == WantsLock)
             else need(pcs'[t]) == WantsLock
    ensures Used(v, pcs', need)
  {
    hide Inv;
    forall u | u in pcs' ensures Meets(v, u, need(pcs'[u])) {
      if u in pcs {
        assert Meets(v, u, need(pcs[u]));
      }
    }
  }

  /** While one thread is inside, no other is. */
  lemma OnlyUser<Pc>(v: Lock, pcs: map<Tid, Pc>, t: Tid, u: Tid, need: Pc -> Need)
    requires Used(v, pcs, need) && t in pcs && need(pcs[t]) in {HasLock, GivesLock} && u in pcs && u != t
    ensures need(pcs[u]) in {NoLock, WantsLock} && u !in v.inside
  {
    hide Inv;
    assert Meets(v, t, need(pcs[t])) && Meets(v, u, need(pcs[u]));
    MutualExclusion(v, t, u);
  }
}
