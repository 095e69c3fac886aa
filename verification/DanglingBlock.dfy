/** Runs of the process table in which a block is deleted while a child still uses it: between its V on shouldExit and its
    V on multex, and in ExitWait. Such runs exist exactly for tables of three slots or more. */
module DanglingBlocks {
  import opened ProcessTables
  import Runs
  import opened Sequences

  lemma Extend(v: State, w: State, i: Inst)
    requires Reachable(v) && !v.halted && !v.dangling && StepOf(v, w, i)
    ensures Reachable(w)
  {
    hide StepOf, Init;
    var run :| IsTableRun(run) && run[|run| - 1] == v;
    var longer := run + [w];
    assert Step(v, w);
    forall k | 0 < k < |longer| ensures Step(longer[k - 1], longer[k]) {
      assert k < |run| ==> Step(run[k - 1], run[k]);
    }
    assert Runs.IsRun(longer, v => Init(v), (v, w) => Step(v, w));
    assert IsTableRun(longer);
  }

  lemma Initial(v: State)
    requires Init(v)
    ensures Reachable(v)
  {
    hide Init;
    assert IsTableRun([v]);
  }

  /** One step on the process's own block. */
  lemma OwnTo(v: State, i: Inst, q: Proc) returns (w: State)
    requires Reachable(v) && !v.halted && !v.dangling && Is(v, i) && OwnStep(i, v.procs[i], q)
    requires v.procs[i].pc.ExitExit? && v.procs[i].parent.Some? ==> Finds(v, v.procs[i].parent.value)
    ensures Reachable(w) && w == v.(procs := v.procs[i := q])
  {
    hide OwnStep, Reachable;
    w := v.(procs := v.procs[i := q]);
    assert Own(v, w, i);
    Extend(v, w, i);
  }

  lemma DownTo(v: State, i: Inst, c: Inst, ch: Proc, p: Proc) returns (w: State)
    requires Reachable(v) && !v.halted && !v.dangling && Is(v, i) && Is(v, c) && c != i && Target(v.procs[i].pc) == Some(c)
    requires !v.procs[c].deleted && DownStep(c, v.procs[c], ch, i, v.procs[i], p)
    ensures Reachable(w) && w == v.(procs := v.procs[c := ch][i := p])
  {
    hide DownStep, Reachable;
    w := v.(procs := v.procs[c := ch][i := p]);
    assert Down(v, w, i);
    Extend(v, w, i);
  }

  lemma UpTo(v: State, c: Inst, i: Inst, ch: Proc, p: Proc) returns (w: State)
    requires Reachable(v) && !v.halted && !v.dangling && Child(v, c, i) && UpPc(v.procs[c].pc)
    requires !v.procs[i].deleted && UpStep(c, v.procs[c], ch, i, v.procs[i], p)
    ensures Reachable(w) && w == v.(procs := v.procs[c := ch][i := p])
  {
    hide UpStep, Reachable;
    w := v.(procs := v.procs[c := ch][i := p]);
    assert Up(v, w, c);
    Extend(v, w, c);
  }

  /** A process that is free to Exec, and has no children. */
  ghost predicate CanExec(v: State, i: Inst, slot: nat)
  {
    && !v.halted && !v.dangling && Is(v, i) && v.asserts
    && v.procs[i].pc == User && v.procs[i].holder.None? && v.procs[i].multex == 1
    && v.procs[i].numwait == 0 && v.procs[i].shouldExit == 1 && v.procs[i].pending == {} && !v.procs[i].mid
    && Finds(v, i) && v.procs[i].pid != slot
    && slot < v.psize && slot !in v.marked && slot !in v.table && slot !in v.reserved
    && forall s: nat :: s < slot ==> s in v.marked
  }

  /** A whole Exec by a process without children. */
  lemma ExecTo(v: State, i: Inst, slot: nat) returns (w: State)
    requires Reachable(v) && CanExec(v, i, slot)
    ensures Reachable(w)
    ensures w == v.(procs := v.procs[i := v.procs[i].(numwait := 1, shouldExit := 0, pending := {|v.procs|})]
                             + [Blank(slot, i).(counted := true, pc := User)],
                    table := v.table[slot := |v.procs|], marked := v.marked + {slot})
  {
    hide Reachable;
    var n, p := |v.procs|, v.procs[i];
    var v2 := ExecToBlock(v, i, slot);
    var v5 := ExecToInc(v2, i, n);
    w := ExecToEnd(v5, i, n);
    assert w.procs == v.procs[i := p.(numwait := 1, shouldExit := 0, pending := {n})]
                      + [Blank(slot, i).(counted := true, pc := User)];
  }

  /** The slot and the new block. */
  lemma ExecToBlock(v: State, i: Inst, slot: nat) returns (w: State)
    requires Reachable(v) && CanExec(v, i, slot)
    ensures Reachable(w)
    ensures w == v.(procs := v.procs[i := v.procs[i].(pc := IncP(|v.procs|))] + [Blank(slot, i)],
                    table := v.table[slot := |v.procs|], marked := v.marked + {slot})
  {
    hide Reachable, StepOf;
    var n, p := |v.procs|, v.procs[i];
    var v1 := v.(procs := v.procs[i := p.(pc := Slot(slot))], marked := v.marked + {slot},
                 reserved := v.reserved[slot := i]);
    ExtendExec(v, v1, i, slot);
    w := v1.(procs := v.procs[i := p.(pc := IncP(n))] + [Blank(slot, i)], table := v.table[slot := n],
             reserved := v.reserved);
    assert v1.procs[i := p.(pc := IncP(n))] == v.procs[i := p.(pc := IncP(n))];
    assert v1.reserved - {slot} == v.reserved;
    ExtendNew(v1, w, i);
  }

  /** IncNumWait, up to the increment of numwait. */
  lemma ExecToInc(v: State, i: Inst, n: Inst) returns (w: State)
    requires Reachable(v) && !v.halted && !v.dangling && Is(v, i)
    requires v.procs[i].pc == IncP(n) && v.procs[i].multex == 1
    requires v.procs[i].numwait == 0 && v.procs[i].shouldExit == 1
    ensures Reachable(w)
    ensures w == v.(procs := v.procs[i := v.procs[i].(multex := 0, holder := Some(i), shouldExit := 0, mid := true,
                                                      pc := IncAdd(n))])
  {
    hide Reachable, StepOf;
    var q := v.procs[i].(multex := 0, holder := Some(i), pc := IncTest(n));
    var v3 := OwnTo(v, i, q);
    q := q.(pc := IncTake(n));
    var v4 := OwnTo(v3, i, q);
    q := q.(shouldExit := 0, mid := true, pc := IncAdd(n));
    w := OwnTo(v4, i, q);
  }

  /** The rest of it, from the increment of numwait on. */
  lemma ExecToEnd(v: State, i: Inst, n: Inst) returns (w: State)
    requires Reachable(v) && !v.halted && !v.dangling && Is(v, i) && Is(v, n) && n != i
    requires v.procs[i].pc == IncAdd(n) && v.procs[i].multex == 0 && v.procs[i].numwait == 0 && v.procs[i].pending == {}
    requires !v.procs[n].deleted && v.procs[n].multex == 1 && v.procs[n].holder.None?
    ensures Reachable(w)
    ensures w == v.(procs := v.procs[n := v.procs[n].(counted := true, pc := User)]
                                    [i := v.procs[i].(numwait := 1, mid := false, pending := {n}, multex := 1,
                                                      holder := None, pc := User)])
  {
    hide Reachable, StepOf;
    var p, c := v.procs[i], v.procs[n].(counted := true);
    var q := p.(numwait := 1, mid := false, pending := {n}, pc := IncV(n));
    var v6 := DownTo(v, i, n, c, q);
    q := q.(multex := 1, holder := None, pc := ForkP(n));
    var v7 := OwnTo(v6, i, q);
    w := ForkTo(v7, i, n);
  }

  lemma ForkTo(v: State, i: Inst, n: Inst) returns (w: State)
    requires Reachable(v) && !v.halted && !v.dangling && Is(v, i) && Is(v, n) && n != i && v.procs[i].pc == ForkP(n)
    requires !v.procs[n].deleted && v.procs[n].multex == 1 && v.procs[n].holder.None?
    ensures Reachable(w)
    ensures w == v.(procs := v.procs[n := v.procs[n].(pc := User)][i := v.procs[i].(pc := User)])
  {
    hide Reachable, StepOf;
    var q, c := v.procs[i], v.procs[n];
    var v8 := DownTo(v, i, n, c.(multex := 0, holder := Some(i)), q.(pc := Fork(n)));
    var v9 := DownTo(v8, i, n, c.(multex := 0, holder := Some(i), pc := User), q.(pc := ForkV(n)));
    w := DownTo(v9, i, n, c.(pc := User), q.(pc := User));
  }

  lemma ExtendExec(v: State, w: State, i: Inst, slot: nat)
    requires Reachable(v) && !v.halted && !v.dangling && BeginExec(v, w, i, slot)
    ensures Reachable(w)
  {
    hide Reachable, BeginExec;
    Extend(v, w, i);
  }

  lemma ExtendNew(v: State, w: State, i: Inst)
    requires Reachable(v) && !v.halted && !v.dangling && NewPcb(v, w, i)
    ensures Reachable(w)
  {
    hide Reachable, NewPcb;
    Extend(v, w, i);
  }

  /** Exit up to the release of the children. */
  lemma ExitTo(v: State, i: Inst, code: int) returns (w: State)
    requires Reachable(v) && !v.halted && !v.dangling && Is(v, i) && v.procs[i].pc == User && v.asserts && Finds(v, i)
    requires v.procs[i].parent.Some? ==> Finds(v, v.procs[i].parent.value)
    requires v.procs[i].joinsem == 0 && v.procs[i].exitsem == 0
    ensures Reachable(w)
    ensures w == v.(procs := v.procs[i := v.procs[i].(code := code, exitcode := code, joinsem := 1, exitsem := 1,
                                                      pc := if v.procs[i].parent.None? then Halting else DecP)])
  {
    hide Reachable, StepOf;
    var q := v.procs[i].(pc := ExitSet, code := code);
    var v1 := v.(procs := v.procs[i := q]);
    ExtendExit(v, v1, i, code);
    q := q.(exitcode := code, pc := ExitJoin);
    var v2 := OwnTo(v1, i, q);
    q := q.(joinsem := 1, pc := ExitExit);
    var v3 := OwnTo(v2, i, q);
    q := q.(exitsem := 1, pc := if q.parent.None? then Halting else DecP);
    w := OwnTo(v3, i, q);
  }

  lemma ExtendExit(v: State, w: State, i: Inst, code: int)
    requires Reachable(v) && !v.halted && !v.dangling && BeginExit(v, w, i, code)
    ensures Reachable(w)
  {
    hide Reachable, BeginExit;
    Extend(v, w, i);
  }

  /** DecNumWait by the last child, up to its V on shouldExit. */
  lemma DecTo(v: State, c: Inst, i: Inst) returns (w: State)
    requires Reachable(v) && !v.halted && !v.dangling && Child(v, c, i) && v.procs[c].pc == DecP
    requires v.procs[i].multex == 1 && v.procs[i].numwait == 1 && v.procs[i].shouldExit == 0 && v.procs[i].pending == {c}
    requires !v.procs[i].deleted && v.procs[i].holder.None? && !v.procs[i].mid
    ensures Reachable(w)
    ensures w == v.(procs := v.procs[c := v.procs[c].(pc := DecV)]
                                    [i := v.procs[i].(multex := 0, holder := Some(c), numwait := 0, pending := {}, shouldExit := 1)])
  {
    hide Reachable, StepOf;
    var ch, p := v.procs[c], v.procs[i];
    p := p.(multex := 0, holder := Some(c));
    var v1 := UpTo(v, c, i, ch.(pc := DecSub), p);
    p := p.(numwait := 0, mid := true, pending := {});
    var v2 := UpTo(v1, c, i, ch.(pc := DecTest), p);
    p := p.(shouldExit := 1, mid := false);
    w := UpTo(v2, c, i, ch.(pc := DecV), p);
  }

  /** The end of DecNumWait, and ExitWait. */
  lemma WaitTo(v: State, c: Inst, i: Inst) returns (w: State)
    requires Reachable(v) && !v.halted && !v.dangling && Child(v, c, i) && v.procs[c].pc == DecV
    requires v.procs[i].multex == 0 && v.procs[i].exitsem == 1 && !v.procs[i].deleted
    ensures Reachable(w)
    ensures w == v.(procs := v.procs[c := v.procs[c].(pc := ExitTake)][i := v.procs[i].(multex := 1, holder := None)])
  {
    hide Reachable, StepOf;
    var ch, p := v.procs[c], v.procs[i].(multex := 1, holder := None);
    var v1 := UpTo(v, c, i, ch.(pc := WaitP), p);
    var v2 := UpTo(v1, c, i, ch.(pc := WaitV), p.(exitsem := 0));
    w := UpTo(v2, c, i, ch.(pc := ExitTake), p);
  }

  lemma RemoveTo(v: State, i: Inst) returns (w: State)
    requires Reachable(v) && !v.halted && !v.dangling && Is(v, i) && v.procs[i].pc == ExitTake && v.procs[i].shouldExit == 1
    requires v.asserts && Finds(v, i)
    ensures Reachable(w) && w.procs == v.procs[i := v.procs[i].(shouldExit := 0, deleted := true, pc := Gone)]
    ensures w.halted == v.halted && w.dangling == v.dangling && w.psize == v.psize
  {
    hide Reachable, StepOf;
    var q := v.procs[i].(shouldExit := 0, pc := Remove);
    var v1 := OwnTo(v, i, q);
    w := v1.(procs := v1.procs[i := q.(deleted := true, pc := Gone)], marked := v1.marked - {q.pid},
             table := v1.table - {q.pid});
    ExtendRemove(v1, w, i);
  }

  lemma ExtendRemove(v: State, w: State, i: Inst)
    requires Reachable(v) && !v.halted && !v.dangling && DoRemove(v, w, i)
    ensures Reachable(w)
  {
    hide Reachable, DoRemove;
    Extend(v, w, i);
  }

  const MAIN := Proc(0, None, 0, 0, 1, 0, 1, 0, false, User, None, false, {1}, true, 0)
  const ONE := Proc(1, Some(0), 0, 0, 1, 0, 1, 0, false, User, None, false, {2}, true, 0)
  const TWO := Proc(2, Some(1), 0, 0, 1, 1, 0, 0, false, User, None, false, {}, true, 0)

  /** Main has created process 1, which has created process 2. */
  lemma ThreeProcesses(psize: nat) returns (v: State)
    requires psize >= 3
    ensures Reachable(v)
    ensures v == State([MAIN, ONE, TWO], map[0 := 0, 1 := 1, 2 := 2], {0, 1, 2}, map[], psize, [], true, false, false)
  {
    hide Reachable, StepOf, OwnStep, DownStep, UpStep;
    var main := Proc(0, None, 0, 0, 1, 1, 0, 0, false, User, None, false, {}, true, 0);
    var v0 := State([main], map[0 := 0], {0}, map[], psize, [], true, false, false);
    assert Init(v0);
    Initial(v0);
    var v1 := ExecTo(v0, 0, 1);
    v := ExecTo(v1, 1, 2);
  }

  /** Main and then process 1 exit; process 1 waits for its child. */
  lemma OneWaits(psize: nat) returns (v: State)
    requires psize >= 3
    ensures Reachable(v) && v.table == map[0 := 0, 1 := 1, 2 := 2] && v.asserts && !v.halted && !v.dangling
    ensures |v.procs| == 3 && v.procs[2] == TWO && v.psize == psize
    ensures v.procs[1] == ONE.(code := 8, exitcode := 8, joinsem := 1, exitsem := 1, pc := ExitTake)
  {
    hide Reachable, StepOf, OwnStep, DownStep, UpStep;
    var v2 := ThreeProcesses(psize);
    var v3 := ExitTo(v2, 0, 7);
    var v4 := ExitTo(v3, 1, 8);
    var v5 := DecTo(v4, 1, 0);
    v := WaitTo(v5, 1, 0);
  }

  /** Then process 2 exits, and has just let its parent go on. */
  lemma TwoSignals(psize: nat) returns (v: State)
    requires psize >= 3
    ensures Reachable(v) && v.table == map[0 := 0, 1 := 1, 2 := 2] && v.asserts && !v.halted && !v.dangling
    ensures |v.procs| == 3 && Child(v, 2, 1) && v.procs[2].pc == DecV && v.psize == psize
    ensures v.procs[1] == ONE.(code := 8, exitcode := 8, joinsem := 1, exitsem := 1, pc := ExitTake, multex := 0,
                               holder := Some(2), numwait := 0, pending := {}, shouldExit := 1)
  {
    hide Reachable, StepOf, OwnStep, DownStep, UpStep;
    var v6 := OneWaits(psize);
    var v7 := ExitTo(v6, 2, 9);
    v := DecTo(v7, 2, 1);
  }

  /** The block of process 1 is removed before the V on multex ... */
  lemma DeletedWhileInUse(psize: nat) returns (v: State, w: State)
    requires psize >= 3
    ensures Reachable(v) && !v.dangling && !v.halted && v.psize == psize
    ensures UsesDeleted(v, 2, 1) && v.procs[2].pc == DecV
    ensures Step(v, w) && w.dangling
  {
    hide Reachable, StepOf, OwnStep, DownStep, UpStep;
    var v8 := TwoSignals(psize);
    v := RemoveTo(v8, 1);
    w := v.(dangling := true);
    UpIsStep(v, w, 2, 1);
  }

  /** ... or after it, when multex is free and process 2 is about to wait on the exitsem of the block. */
  lemma DeletedBeforeExitWait(psize: nat) returns (v: State, w: State)
    requires psize >= 3
    ensures Reachable(v) && !v.dangling && !v.halted && v.psize == psize
    ensures UsesDeleted(v, 2, 1) && v.procs[2].pc == WaitP && v.procs[1].multex == 1
    ensures Step(v, w) && w.dangling
  {
    hide Reachable, StepOf, OwnStep, DownStep;
    var v8 := TwoSignals(psize);
    var v9 := UpTo(v8, 2, 1, v8.procs[2].(pc := WaitP), v8.procs[1].(multex := 1, holder := None));
    v := RemoveTo(v9, 1);
    w := v.(dangling := true);
    UpIsStep(v, w, 2, 1);
  }

  // ---- tables of one or two slots ----

  /** With two slots only the main process can have children, and no deleted block is used. */
  ghost predicate Small(v: State)
  {
    && Inv(v) && (forall s :: s in v.marked ==> s < v.psize)
    && (v.psize <= 2 ==> OnlyMainHasChildren(v) && !v.dangling)
  }

  lemma NoSlotLeft(v: State, i: Inst)
    requires Inv(v) && Is(v, i) && i > 0 && v.procs[i].pc.Slot? && (forall s :: s in v.marked ==> s < v.psize)
    ensures v.psize > 2
  {
    hide Inv, Link, Refers;
    InvAsserts(v);
    Facts(v, i);
    Facts(v, 0);
    var pid, slot := v.procs[i].pid, v.procs[i].pc.slot;
    assert pid in v.table && v.procs[0].pid in v.table && slot in v.marked && slot !in v.table;
    assert v.table[pid] == i && v.table[v.procs[0].pid] == 0;
    if v.psize <= 2 {
      ThreeBelow(v.procs[0].pid, pid, slot);
    }
  }

  lemma ThreeBelow(a: nat, b: nat, c: nat)
    requires a != b && a != c && b != c
    ensures a > 1 || b > 1 || c > 1
  {
  }

  lemma ChildrenAfter(v: State, w: State, i: Inst, c: Inst, x: Inst)
    requires StepOf(v, w, i) && Child(w, c, x)
    ensures Child(v, c, x) || (NewPcb(v, w, i) && x == i)
  {
    hide NewPcb, StepOf;
    if NewPcb(v, w, i) {
      NewChild(v, w, i, c, x);
    } else {
      OthersAreCalm(v, w, i);
      SameChildren(v, w, c, x);
    }
  }

  /** No process is added, and no slot outside the table is marked. */
  ghost predicate Calm(v: State, w: State)
  {
    SameFamily(v, w) && w.psize == v.psize && forall s :: s in w.marked ==> s in v.marked || s < v.psize
  }

  lemma BeginExecCalm(v: State, w: State, i: Inst, slot: nat)
    requires BeginExec(v, w, i, slot)
    ensures Calm(v, w)
  {
  }

  lemma BeginExitCalm(v: State, w: State, i: Inst, code: int)
    requires BeginExit(v, w, i, code)
    ensures Calm(v, w)
  {
  }

  lemma BeginJoinCalm(v: State, w: State, i: Inst, c: Inst)
    requires BeginJoin(v, w, i, c)
    ensures Calm(v, w)
  {
  }

  lemma EndJoinCalm(v: State, w: State, i: Inst)
    requires EndJoin(v, w, i)
    ensures Calm(v, w)
  {
  }

  lemma DoHaltCalm(v: State, w: State, i: Inst)
    requires DoHalt(v, w, i)
    ensures Calm(v, w)
  {
  }

  lemma DoRemoveCalm(v: State, w: State, i: Inst)
    requires DoRemove(v, w, i)
    ensures Calm(v, w)
  {
  }

  lemma OwnCalm(v: State, w: State, i: Inst)
    requires Own(v, w, i)
    ensures Calm(v, w)
  {
    hide OwnStep;
    OwnFields(i, v.procs[i], w.procs[i]);
  }

  lemma DownCalm(v: State, w: State, i: Inst)
    requires Down(v, w, i)
    ensures Calm(v, w)
  {
    hide DownStep;
    var c := Target(v.procs[i].pc).value;
    if !v.procs[c].deleted {
      DownFields(c, v.procs[c], w.procs[c], i, v.procs[i], w.procs[i]);
    }
  }

  lemma UpCalm(v: State, w: State, c: Inst)
    requires Up(v, w, c)
    ensures Calm(v, w)
  {
    hide UpStep;
    var i := v.procs[c].parent.value;
    if !v.procs[i].deleted {
      UpFields(c, v.procs[c], w.procs[c], i, v.procs[i], w.procs[i]);
    }
  }

  lemma OthersAreCalm(v: State, w: State, i: Inst)
    requires StepOf(v, w, i) && !NewPcb(v, w, i)
    ensures Calm(v, w)
  {
    hide BeginExec, BeginExit, BeginJoin, EndJoin, NewPcb, Own, DoHalt, DoRemove, Down, Up, Calm;
    if slot :| BeginExec(v, w, i, slot) {
      BeginExecCalm(v, w, i, slot);
    } else if code :| BeginExit(v, w, i, code) {
      BeginExitCalm(v, w, i, code);
    } else if c :| BeginJoin(v, w, i, c) {
      BeginJoinCalm(v, w, i, c);
    } else if EndJoin(v, w, i) {
      EndJoinCalm(v, w, i);
    } else if Own(v, w, i) {
      OwnCalm(v, w, i);
    } else if DoHalt(v, w, i) {
      DoHaltCalm(v, w, i);
    } else if DoRemove(v, w, i) {
      DoRemoveCalm(v, w, i);
    } else if Down(v, w, i) {
      DownCalm(v, w, i);
    } else {
      UpCalm(v, w, i);
    }
  }

  lemma SmallStep(v: State, w: State)
    requires Small(v) && Step(v, w)
    ensures Small(w)
  {
    hide Inv, StepOf;
    var i :| StepOf(v, w, i);
    StepOfKeeps(v, w, i);
    MarkedStep(v, w, i);
    if v.psize <= 2 {
      SafeStep(v, w);
      forall c, x | Child(w, c, x) ensures x == 0 {
        ChildrenAfter(v, w, i, c, x);
        if NewPcb(v, w, i) && i > 0 {
          NoSlotLeft(v, i);
        }
      }
    }
  }

  lemma MarkedStep(v: State, w: State, i: Inst)
    requires StepOf(v, w, i) && forall s :: s in v.marked ==> s < v.psize
    ensures w.psize == v.psize && forall s :: s in w.marked ==> s < w.psize
  {
    hide StepOf, SameFamily;
    if !NewPcb(v, w, i) {
      hide NewPcb;
      OthersAreCalm(v, w, i);
    }
  }

  lemma ReachableIsSmall(v: State)
    requires Reachable(v)
    ensures Small(v)
  {
    hide Small, Step;
    var run :| IsTableRun(run) && run[|run| - 1] == v;
    forall u | Init(u) ensures Small(u) {
      InitIsSmall(u);
    }
    hide Init;
    forall u, w | Small(u) && Step(u, w) ensures Small(w) {
      SmallStep(u, w);
    }
    Runs.InvariantHolds(run, v => Init(v), (v, w) => Step(v, w), v => Small(v), |run| - 1);
  }

  lemma InitIsSmall(v: State)
    requires Init(v)
    ensures Small(v)
  {
    hide Inv;
    InitInv(v);
  }

  /** A deleted block can be used in some run exactly if the table has three slots or more. */
  lemma DanglesIffThreeSlots(psize: nat)
    ensures (exists v :: Reachable(v) && v.psize == psize && v.dangling) <==> psize >= 3
  {
    hide Reachable, Step, Small;
    if psize >= 3 {
      var v, w := DeletedWhileInUse(psize);
      StepReaches(v, w);
      StepKeepsSize(v, w);
    } else if v :| Reachable(v) && v.psize == psize && v.dangling {
      ReachableIsSmall(v);
      SmallIsSafe(v);
    }
  }

  lemma StepReaches(v: State, w: State)
    requires Reachable(v) && Step(v, w)
    ensures Reachable(w)
  {
    hide Reachable, StepOf;
    var i :| StepOf(v, w, i);
    Extend(v, w, i);
  }

  lemma StepKeepsSize(v: State, w: State)
    requires Reachable(v) && Step(v, w)
    ensures w.psize == v.psize
  {
    hide StepOf, Inv, Reachable;
    ReachableIsSmall(v);
    var i :| StepOf(v, w, i);
    MarkedStep(v, w, i);
  }

  lemma SmallIsSafe(v: State)
    requires Small(v) && v.psize <= 2
    ensures !v.dangling
  {
  }
}
