/** The process table (threads/ptable.cc, threads/pcb.cc): Exec, Join and Exit over four semaphores in each process
    control block. Semaphore operations are atomic steps, and so is each section guarded by `bmsem`. */
module ProcessTables {
  import Runs
  import opened Sequences

  /** A control block, numbered in the order of creation; a slot of the table may be used again, a number is not. */
  type Inst = nat

  /** What a process does next; `n` is the child it is creating. */
  datatype Pc =
    | NotStarted | User
    | Slot(slot: nat)                                                  // PTable::ExecUpdate
    | IncP(n: Inst) | IncTest(n: Inst) | IncTake(n: Inst) | IncAdd(n: Inst) | IncV(n: Inst)   // PCB::IncNumWait
    | ForkP(n: Inst) | Fork(n: Inst) | ForkV(n: Inst)                  // PCB::Exec
    | ExitSet | ExitJoin | ExitExit | Halting                          // PTable::ExitUpdate
    | DecP | DecSub | DecTest | DecV                                   // PCB::DecNumWait of the parent
    | WaitP | WaitV                                                    // PCB::ExitWait of the parent
    | ExitTake | Remove | Gone                                         // PCB::Exit, PTable::Remove
    | JoinP(asked: Inst, found: Inst) | JoinRead(asked: Inst, found: Inst)   // PTable::JoinUpdate

  /** A control block and its process. For the proof: `holder` is who holds `multex`, `mid` whether that one is between
      its updates of `numwait` and `shouldExit`, `pending` the children counted in `numwait`, `counted` whether this
      process has been counted by its parent, and `code` what it passed to Exit. */
  datatype Proc = Proc(pid: nat, parent: Option<Inst>, joinsem: int, exitsem: int, multex: int, shouldExit: int,
                       numwait: int, exitcode: int, deleted: bool, pc: Pc,
                       holder: Option<Inst>, mid: bool, pending: set<Inst>, counted: bool, code: int)

  /** A finished Join: the parent, the child it asked for, and the code it got. */
  datatype Join = Join(parent: Inst, child: Inst, code: int)

  /** `reserved`: the slots that are marked but have no block yet, and for whom. `asserts`: every lookup in the table
      found the block that was meant. `dangling`: a deleted block was used, after which nothing is said. */
  datatype State = State(procs: seq<Proc>, table: map<nat, Inst>, marked: set<nat>, reserved: map<nat, Inst>, psize: nat,
                         joins: seq<Join>, asserts: bool, halted: bool, dangling: bool)

  ghost predicate Finds(v: State, i: Inst)
  {
    i < |v.procs| && v.procs[i].pid in v.table && v.table[v.procs[i].pid] == i
  }

  // ---- calls from user code, and the end of Join ----

  /** GetFreeSlot: the lowest free slot. */
  ghost predicate BeginExec(v: State, w: State, i: Inst, slot: nat)
  {
    && i < |v.procs| && v.procs[i].pc == User
    && slot < v.psize && slot !in v.marked && (forall s: nat :: s < slot ==> s in v.marked)
    && w == v.(procs := v.procs[i := v.procs[i].(pc := Slot(slot))], marked := v.marked + {slot},
               reserved := v.reserved[slot := i])
  }

  ghost predicate BeginExit(v: State, w: State, i: Inst, code: int)
  {
    && i < |v.procs| && v.procs[i].pc == User
    && w == v.(procs := v.procs[i := v.procs[i].(pc := ExitSet, code := code)], asserts := v.asserts && Finds(v, i))
  }

  /** A process joins one of its own children. */
  ghost predicate BeginJoin(v: State, w: State, i: Inst, c: Inst)
  {
    && i < |v.procs| && v.procs[i].pc == User && Child(v, c, i)
    && w == if v.procs[c].pid in v.table
            then v.(procs := v.procs[i := v.procs[i].(pc := JoinP(c, v.table[v.procs[c].pid]))])
            else v.(asserts := false)
  }

  ghost predicate EndJoin(v: State, w: State, i: Inst)
  {
    && i < |v.procs| && v.procs[i].pc.JoinRead? && v.procs[i].pc.found < |v.procs|
    && var c := v.procs[v.procs[i].pc.found];
       w == if c.deleted then v.(dangling := true)
            else v.(procs := v.procs[i := v.procs[i].(pc := User)],
                    joins := v.joins + [Join(i, v.procs[i].pc.asked, c.exitcode)])
  }

  /** ExecUpdate puts a new block into the slot. */
  ghost predicate NewPcb(v: State, w: State, i: Inst)
  {
    && i < |v.procs| && v.procs[i].pc.Slot?
    && var n, slot := |v.procs|, v.procs[i].pc.slot;
       w == v.(procs := v.procs[i := v.procs[i].(pc := IncP(n))] + [Blank(slot, i)], table := v.table[slot := n],
               reserved := v.reserved - {slot}, asserts := v.asserts && Finds(v, i) && v.procs[i].pid != slot)
  }

  ghost function Blank(slot: nat, i: Inst): Proc
  {
    Proc(slot, Some(i), 0, 0, 1, 1, 0, 0, false, NotStarted, None, false, {}, false, 0)
  }

  // ---- steps that touch only the process's own block ----

  ghost predicate OwnStep(i: Inst, p: Proc, q: Proc)
  {
    match p.pc
    // IncNumWait
    case IncP(n) => p.multex > 0 && q == p.(multex := p.multex - 1, holder := Some(i), pc := IncTest(n))
    case IncTest(n) => q == if p.numwait == 0 then p.(pc := IncTake(n)) else p.(mid := true, pc := IncAdd(n))
    case IncTake(n) => p.shouldExit > 0 && q == p.(shouldExit := p.shouldExit - 1, mid := true, pc := IncAdd(n))
    case IncV(n) => q == p.(multex := p.multex + 1, holder := None, pc := ForkP(n))
    // ExitUpdate
    case ExitSet => q == p.(exitcode := p.code, pc := ExitJoin)
    case ExitJoin => q == p.(joinsem := p.joinsem + 1, pc := ExitExit)
    case ExitExit => q == p.(exitsem := p.exitsem + 1, pc := if p.parent.None? then Halting else DecP)
    case ExitTake => p.shouldExit > 0 && q == p.(shouldExit := p.shouldExit - 1, pc := Remove)
    case _ => false
  }

  ghost predicate Own(v: State, w: State, i: Inst)
  {
    && i < |v.procs| && i < |w.procs| && OwnStep(i, v.procs[i], w.procs[i])
    && w == v.(procs := v.procs[i := w.procs[i]],
               asserts := v.asserts && (v.procs[i].pc.ExitExit? && v.procs[i].parent.Some? ==>
                                          Finds(v, v.procs[i].parent.value)))
  }

  ghost predicate DoHalt(v: State, w: State, i: Inst)
  {
    i < |v.procs| && v.procs[i].pc == Halting && w == v.(halted := true)
  }

  /** PTable::Remove */
  ghost predicate DoRemove(v: State, w: State, i: Inst)
  {
    && i < |v.procs| && v.procs[i].pc == Remove
    && var p := v.procs[i];
       w == v.(procs := v.procs[i := p.(deleted := true, pc := Gone)], marked := v.marked - {p.pid},
               table := v.table - {p.pid}, asserts := v.asserts && Finds(v, i))
  }

  // ---- steps of a parent on the block of its child ----

  ghost predicate DownStep(c: Inst, ch: Proc, ch': Proc, i: Inst, p: Proc, p': Proc)
  {
    match p.pc
    case IncAdd(_) =>
      ch' == ch.(counted := true)
      && p' == p.(numwait := p.numwait + 1, mid := false, pending := p.pending + {c}, pc := IncV(c))
    // PCB::Exec
    case ForkP(_) => ch.multex > 0 && ch' == ch.(multex := ch.multex - 1, holder := Some(i)) && p' == p.(pc := Fork(c))
    case Fork(_) => ch' == ch.(pc := User) && p' == p.(pc := ForkV(c))
    case ForkV(_) => ch' == ch.(multex := ch.multex + 1, holder := None) && p' == p.(pc := User)
    // JoinWait
    case JoinP(asked, _) => ch.joinsem > 0 && ch' == ch.(joinsem := ch.joinsem - 1) && p' == p.(pc := JoinRead(asked, c))
    case _ => false
  }

  ghost function Target(pc: Pc): Option<Inst>
  {
    if pc.IncAdd? || pc.ForkP? || pc.Fork? || pc.ForkV? then Some(pc.n)
    else if pc.JoinP? then Some(pc.found) else None
  }

  ghost predicate Down(v: State, w: State, i: Inst)
  {
    && i < |v.procs| == |w.procs| && Target(v.procs[i].pc).Some?
    && var c := Target(v.procs[i].pc).value;
       && c < |v.procs|
       && if v.procs[c].deleted then w == v.(dangling := true)
          else && DownStep(c, v.procs[c], w.procs[c], i, v.procs[i], w.procs[i])
               && w == v.(procs := v.procs[c := w.procs[c]][i := w.procs[i]])
  }

  // ---- steps of a child on the block of its parent: DecNumWait and ExitWait ----

  ghost predicate UpStep(c: Inst, ch: Proc, ch': Proc, i: Inst, p: Proc, p': Proc)
  {
    match ch.pc
    case DecP => p.multex > 0 && p' == p.(multex := p.multex - 1, holder := Some(c)) && ch' == ch.(pc := DecSub)
    case DecSub =>
      p' == p.(numwait := p.numwait - 1, mid := true, pending := p.pending - {c}) && ch' == ch.(pc := DecTest)
    case DecTest =>
      p' == p.(shouldExit := p.shouldExit + (if p.numwait == 0 then 1 else 0), mid := false) && ch' == ch.(pc := DecV)
    case DecV => p' == p.(multex := p.multex + 1, holder := None) && ch' == ch.(pc := WaitP)
    case WaitP => p.exitsem > 0 && p' == p.(exitsem := p.exitsem - 1) && ch' == ch.(pc := WaitV)
    case WaitV => p' == p.(exitsem := p.exitsem + 1) && ch' == ch.(pc := ExitTake)
    case _ => false
  }

  ghost predicate UpPc(pc: Pc)
  {
    pc.DecP? || pc.DecSub? || pc.DecTest? || pc.DecV? || pc.WaitP? || pc.WaitV?
  }

  ghost predicate Up(v: State, w: State, c: Inst)
  {
    && c < |v.procs| == |w.procs| && UpPc(v.procs[c].pc) && v.procs[c].parent.Some? && v.procs[c].parent.value < c
    && var i := v.procs[c].parent.value;
       if v.procs[i].deleted then w == v.(dangling := true)
       else && UpStep(c, v.procs[c], w.procs[c], i, v.procs[i], w.procs[i])
            && w == v.(procs := v.procs[c := w.procs[c]][i := w.procs[i]])
  }

  ghost predicate StepOf(v: State, w: State, i: Inst)
  {
    || (exists slot :: BeginExec(v, w, i, slot)) || (exists code :: BeginExit(v, w, i, code))
    || (exists c :: BeginJoin(v, w, i, c)) || EndJoin(v, w, i) || NewPcb(v, w, i)
    || Own(v, w, i) || DoHalt(v, w, i) || DoRemove(v, w, i) || Down(v, w, i) || Up(v, w, i)
  }

  /** Nothing happens after the machine has halted, and nothing is said after a use of a deleted block. */
  ghost predicate Step(v: State, w: State)
  {
    !v.halted && !v.dangling && exists i :: StepOf(v, w, i)
  }

  /** The main process is in slot 0. */
  ghost predicate Init(v: State)
  {
    exists psize :: psize > 0 &&
      v == State([Proc(0, None, 0, 0, 1, 1, 0, 0, false, User, None, false, {}, true, 0)], map[0 := 0], {0}, map[], psize,
                 [], true, false, false)
  }

  // ---- what every step keeps ----

  ghost predicate Is(v: State, i: int)
  {
    0 <= i < |v.procs|
  }

  ghost predicate Child(v: State, c: Inst, i: Inst)
  {
    c < |v.procs| && i < c && v.procs[c].parent == Some(i)
  }

  ghost predicate Creating(pc: Pc, n: Inst)
  {
    Uncounted(pc, n) || pc == IncV(n) || pc == ForkP(n) || pc == Fork(n)
  }

  ghost predicate Uncounted(pc: Pc, n: Inst)
  {
    pc == IncP(n) || pc == IncTest(n) || pc == IncTake(n) || pc == IncAdd(n)
  }

  /** In IncNumWait of its own block, in DecNumWait of its parent's, in Exec of its child's. */
  ghost predicate InInc(pc: Pc) { pc.IncTest? || pc.IncTake? || pc.IncAdd? || pc.IncV? }
  ghost predicate InDec(pc: Pc) { pc.DecSub? || pc.DecTest? || pc.DecV? }
  ghost predicate InFork(pc: Pc, n: Inst) { pc == Fork(n) || pc == ForkV(n) }

  /** The process has decremented its parent's count. */
  ghost predicate PastSub(pc: Pc)
  {
    pc.DecTest? || pc.DecV? || pc.WaitP? || pc.WaitV? || pc.ExitTake? || Taken(pc)
  }

  /** The process has found that it has no children to wait for. */
  ghost predicate Taken(pc: Pc) { pc.Remove? || pc.Gone? }

  /** The process has let its children exit. */
  ghost predicate Released(pc: Pc)
  {
    pc.Halting? || pc.DecP? || pc.DecSub? || PastSub(pc)
  }

  /** The exit code is stored, and is what was passed to Exit. */
  ghost predicate CodeSet(p: Proc)
  {
    (p.pc.ExitJoin? || p.pc.ExitExit? || Released(p.pc)) && p.exitcode == p.code
  }

  /** `multex` is 0 exactly while somebody holds it. */
  ghost predicate HoldRight(i: Inst, p: Proc)
  {
    && p.multex == (if p.holder.None? then 1 else 0)
    && (p.holder == Some(i) <==> InInc(p.pc))
    && (p.holder.None? ==> !p.mid) && (p.holder == Some(i) ==> (p.mid <==> p.pc.IncAdd?))
  }

  /** Only the main process has no parent, and a block is deleted when its process is gone. */
  ghost predicate PlaceRight(i: Inst, p: Proc)
  {
    && (i > 0 <==> p.parent.Some?)
    && (i == 0 ==> p.pc != NotStarted && p.counted && !p.pc.DecP? && !p.pc.DecSub? && !PastSub(p.pc))
    && (p.deleted <==> p.pc == Gone)
  }

  /** `numwait` counts, and `shouldExit` is up while it is 0. */
  ghost predicate CountRight(p: Proc)
  {
    && p.numwait == |p.pending| && (p.pc.IncTake? ==> p.numwait == 0)
    && (if Taken(p.pc) then p.shouldExit == 0 && p.numwait == 0 && !p.mid
        else p.shouldExit == if p.mid || p.numwait != 0 then 0 else 1)
  }

  /** `exitsem` and `joinsem` are up only when the process has got so far in Exit. */
  ghost predicate ExitRight(p: Proc)
  {
    && p.exitsem >= 0 && (p.exitsem > 0 ==> Released(p.pc))
    && (p.joinsem > 0 || p.pc.ExitJoin? || p.pc.ExitExit? || Released(p.pc) ==> CodeSet(p))
  }

  /** What holds of one block and its process. */
  ghost predicate Local(i: Inst, p: Proc)
  {
    PlaceRight(i, p) && HoldRight(i, p) && CountRight(p) && ExitRight(p)
  }

  // What holds between the block of process `c` and that of its parent `i`.

  ghost predicate LinkCount(c: Inst, child: Proc, p: Proc)
  {
    && (child.pc == NotStarted <==> Creating(p.pc, c))
    && (!child.counted <==> Uncounted(p.pc, c))
    && (c in p.pending <==> child.counted && !PastSub(child.pc))
  }

  /** The child holds the `multex` of its parent in DecNumWait, the parent that of its child in Exec. */
  ghost predicate HoldsUp(c: Inst, child: Proc, p: Proc)
  {
    (p.holder == Some(c) <==> InDec(child.pc)) && (p.holder == Some(c) ==> (p.mid <==> child.pc.DecTest?))
  }

  ghost predicate HoldsDown(c: Inst, child: Proc, i: Inst, p: Proc)
  {
    (child.holder == Some(i) <==> InFork(p.pc, c)) && (child.holder == Some(i) ==> !child.mid)
  }

  ghost predicate LinkHold(c: Inst, child: Proc, i: Inst, p: Proc)
  {
    HoldsUp(c, child, p) && HoldsDown(c, child, i, p)
  }

  ghost predicate LinkExit(c: Inst, child: Proc, p: Proc)
  {
    && (child.pc.WaitV? || child.pc.ExitTake? || Taken(child.pc) ==> Released(p.pc))
    && (p.pc == JoinRead(c, c) ==> CodeSet(child))
  }

  ghost predicate Link(c: Inst, child: Proc, i: Inst, p: Proc)
  {
    LinkCount(c, child, p) && LinkHold(c, child, i, p) && LinkExit(c, child, p)
  }

  /** Whoever a block mentions is a relative. */
  ghost predicate Refers(v: State, i: Inst, p: Proc)
  {
    && (p.parent.Some? ==> Child(v, i, p.parent.value))
    && (p.holder.Some? ==> p.holder == Some(i) || Child(v, p.holder.value, i) || Child(v, i, p.holder.value))
    && (forall c :: c in p.pending ==> Child(v, c, i))
    && PcRefers(v, i, p.pc)
  }

  ghost predicate PcRefers(v: State, i: Inst, pc: Pc)
  {
    && (pc.IncP? || InInc(pc) || pc.ForkP? || pc.Fork? || pc.ForkV? ==> Child(v, pc.n, i))
    && (pc.JoinP? || pc.JoinRead? ==> pc.asked == pc.found && Child(v, pc.found, i))
  }

  /** The table has exactly the blocks that are not deleted, and no slot is given out twice. */
  ghost predicate Listed(v: State, i: Inst, p: Proc)
  {
    && (!p.deleted ==> p.pid in v.table && v.table[p.pid] == i)
    && (p.pc.Slot? ==> p.pc.slot in v.reserved && v.reserved[p.pc.slot] == i)
  }

  ghost predicate Slots(v: State)
  {
    && (forall s :: s in v.table ==> s in v.marked && s !in v.reserved && v.table[s] < |v.procs|)
    && (forall s :: s in v.reserved ==> s in v.marked)
    && |v.procs| > 0
  }

  ghost predicate JoinsRight(v: State)
  {
    forall k :: 0 <= k < |v.joins| ==>
      && v.joins[k].child < |v.procs| && CodeSet(v.procs[v.joins[k].child])
      && v.joins[k].code == v.procs[v.joins[k].child].code
  }

  ghost predicate Inv(v: State)
  {
    v.asserts && Slots(v) && JoinsRight(v) && Blocks(v) && Links(v)
  }

  ghost predicate Blocks(v: State)
  {
    forall i: Inst {:trigger Is(v, i)} :: Is(v, i) ==>
      Local(i, v.procs[i]) && Refers(v, i, v.procs[i]) && Listed(v, i, v.procs[i])
  }

  ghost predicate Links(v: State)
  {
    forall c: Inst, i: Inst {:trigger Child(v, c, i)} :: Child(v, c, i) ==> Link(c, v.procs[c], i, v.procs[i])
  }

  lemma InitInv(v: State)
    requires Init(v)
    ensures Inv(v)
  {
  }

  // ---- one block at a time ----

  ghost function OwnNext(p: Proc): Pc
  {
    match p.pc
    case IncP(n) => IncTest(n)
    case IncTest(n) => if p.numwait == 0 then IncTake(n) else IncAdd(n)
    case IncTake(n) => IncAdd(n)
    case IncV(n) => ForkP(n)
    case ExitSet => ExitJoin
    case ExitJoin => ExitExit
    case ExitExit => if p.parent.None? then Halting else DecP
    case ExitTake => Remove
    case pc => pc
  }

  /** What each kind of step can change. */
  lemma OwnShape(i: Inst, p: Proc, q: Proc)
    requires OwnStep(i, p, q)
    ensures q == p.(multex := q.multex, holder := q.holder, mid := q.mid, shouldExit := q.shouldExit,
                    exitcode := q.exitcode, joinsem := q.joinsem, exitsem := q.exitsem, pc := OwnNext(p))
    ensures p.pc.IncP? || p.pc.IncTest? || p.pc.IncTake? || p.pc.IncV? || p.pc.ExitSet? || p.pc.ExitJoin?
            || p.pc.ExitExit? || p.pc.ExitTake?
    ensures p.pc.ExitSet? || q.exitcode == p.exitcode
    ensures q.holder in {p.holder, Some(i), None}
  {
  }

  lemma DownShape(c: Inst, ch: Proc, ch': Proc, i: Inst, p: Proc, p': Proc)
    requires DownStep(c, ch, ch', i, p, p') && Target(p.pc) == Some(c)
    ensures ch' == ch.(counted := ch'.counted, multex := ch'.multex, holder := ch'.holder, joinsem := ch'.joinsem,
                       pc := if p.pc.Fork? then User else ch.pc)
    ensures p' == p.(numwait := p'.numwait, mid := p'.mid, pending := p'.pending, pc := p'.pc)
    ensures p'.pc in {IncV(c), Fork(c), ForkV(c), User} || (p.pc.JoinP? && p'.pc == JoinRead(p.pc.asked, c))
    ensures ch'.holder in {ch.holder, Some(i), None} && p'.pending <= p.pending + {c} && p'.mid == (p.mid && !p.pc.IncAdd?)
  {
  }

  ghost function UpNext(pc: Pc): Pc
  {
    match pc
    case DecP => DecSub
    case DecSub => DecTest
    case DecTest => DecV
    case DecV => WaitP
    case WaitP => WaitV
    case WaitV => ExitTake
    case _ => pc
  }

  lemma UpShape(c: Inst, ch: Proc, ch': Proc, i: Inst, p: Proc, p': Proc)
    requires UpStep(c, ch, ch', i, p, p') && UpPc(ch.pc)
    ensures ch' == ch.(pc := UpNext(ch.pc))
    ensures p' == p.(multex := p'.multex, holder := p'.holder, shouldExit := p'.shouldExit, numwait := p'.numwait,
                     mid := p'.mid, pending := p'.pending, exitsem := p'.exitsem)
    ensures p'.holder in {p.holder, Some(c), None} && p'.pending <= p.pending && (ch.pc.WaitP? ==> p.exitsem > 0)
  {
  }

  lemma OwnLocalHold(i: Inst, p: Proc, q: Proc)
    requires OwnStep(i, p, q) && Local(i, p)
    ensures HoldRight(i, q)
  {
    hide PlaceRight, CountRight, ExitRight;
  }

  lemma OwnLocalCount(i: Inst, p: Proc, q: Proc)
    requires OwnStep(i, p, q) && Local(i, p)
    ensures CountRight(q)
  {
    hide PlaceRight, ExitRight;
  }

  lemma OwnLocalExit(i: Inst, p: Proc, q: Proc)
    requires OwnStep(i, p, q) && Local(i, p)
    ensures PlaceRight(i, q) && ExitRight(q)
  {
    hide HoldRight, CountRight;
  }

  lemma OwnLocal(i: Inst, p: Proc, q: Proc)
    requires OwnStep(i, p, q) && Local(i, p)
    ensures Local(i, q)
  {
    hide OwnStep, PlaceRight, HoldRight, CountRight, ExitRight;
    OwnLocalHold(i, p, q);
    OwnLocalCount(i, p, q);
    OwnLocalExit(i, p, q);
  }

  lemma OwnAsParentCount(c: Inst, ch: Proc, i: Inst, p: Proc, q: Proc)
    requires OwnStep(i, p, q) && Local(i, p) && Link(c, ch, i, p) && c != i
    ensures LinkCount(c, ch, q)
  {
    hide OwnStep, Local, LinkHold, LinkExit;
    OwnShape(i, p, q);
  }

  lemma OwnAsParentHold(c: Inst, ch: Proc, i: Inst, p: Proc, q: Proc)
    requires OwnStep(i, p, q) && Local(i, p) && Link(c, ch, i, p) && c != i
    ensures LinkHold(c, ch, i, q)
  {
    hide LinkCount, LinkExit;
  }

  lemma OwnAsParentExit(c: Inst, ch: Proc, i: Inst, p: Proc, q: Proc)
    requires OwnStep(i, p, q) && Local(i, p) && Link(c, ch, i, p) && c != i
    ensures LinkExit(c, ch, q)
  {
    hide OwnStep, Local, LinkHold, LinkCount;
    OwnShape(i, p, q);
  }

  lemma OwnAsParent(c: Inst, ch: Proc, i: Inst, p: Proc, q: Proc)
    requires OwnStep(i, p, q) && Local(i, p) && Link(c, ch, i, p) && c != i
    ensures Link(c, ch, i, q)
  {
    hide LinkCount, LinkHold, LinkExit, Local, OwnStep, DownStep, UpStep;
    OwnAsParentCount(c, ch, i, p, q);
    OwnAsParentHold(c, ch, i, p, q);
    OwnAsParentExit(c, ch, i, p, q);
  }

  lemma OwnAsChildCount(i: Inst, p: Proc, q: Proc, j: Inst, par: Proc)
    requires OwnStep(i, p, q) && Local(i, p) && Link(i, p, j, par) && j != i
    ensures LinkCount(i, q, par)
  {
    hide OwnStep, Local, LinkHold, LinkExit;
    OwnShape(i, p, q);
  }

  lemma OwnAsChildHold(i: Inst, p: Proc, q: Proc, j: Inst, par: Proc)
    requires OwnStep(i, p, q) && Local(i, p) && Link(i, p, j, par) && j != i
    ensures LinkHold(i, q, j, par)
  {
    hide LinkCount, LinkExit;
  }

  lemma OwnAsChildExit(i: Inst, p: Proc, q: Proc, j: Inst, par: Proc)
    requires OwnStep(i, p, q) && Local(i, p) && Link(i, p, j, par) && j != i
    ensures LinkExit(i, q, par)
  {
    hide OwnStep, PlaceRight, HoldRight, CountRight, LinkHold, LinkCount;
    OwnShape(i, p, q);
  }

  lemma OwnAsChild(i: Inst, p: Proc, q: Proc, j: Inst, par: Proc)
    requires OwnStep(i, p, q) && Local(i, p) && Link(i, p, j, par) && j != i
    ensures Link(i, q, j, par)
  {
    hide LinkCount, LinkHold, LinkExit, Local, OwnStep, DownStep, UpStep;
    OwnAsChildCount(i, p, q, j, par);
    OwnAsChildHold(i, p, q, j, par);
    OwnAsChildExit(i, p, q, j, par);
  }

  lemma DownChildHold(c: Inst, ch: Proc, ch': Proc, i: Inst, p: Proc, p': Proc)
    requires DownStep(c, ch, ch', i, p, p') && Target(p.pc) == Some(c)
    requires Local(c, ch) && Link(c, ch, i, p) && c != i
    ensures HoldRight(c, ch')
  {
    hide PlaceRight, CountRight, ExitRight, LinkExit;
  }

  lemma DownChildRest(c: Inst, ch: Proc, ch': Proc, i: Inst, p: Proc, p': Proc)
    requires DownStep(c, ch, ch', i, p, p') && Target(p.pc) == Some(c)
    requires Local(c, ch) && Link(c, ch, i, p) && c != i
    ensures PlaceRight(c, ch') && CountRight(ch') && ExitRight(ch')
  {
    hide HoldRight, LinkExit, LinkHold;
  }

  lemma DownChild(c: Inst, ch: Proc, ch': Proc, i: Inst, p: Proc, p': Proc)
    requires DownStep(c, ch, ch', i, p, p') && Target(p.pc) == Some(c)
    requires Local(c, ch) && Link(c, ch, i, p) && c != i
    ensures Local(c, ch')
  {
    hide DownStep, PlaceRight, HoldRight, CountRight, ExitRight;
    DownChildHold(c, ch, ch', i, p, p');
    DownChildRest(c, ch, ch', i, p, p');
  }

  lemma DownParentCount(c: Inst, ch: Proc, ch': Proc, i: Inst, p: Proc, p': Proc)
    requires DownStep(c, ch, ch', i, p, p') && Target(p.pc) == Some(c)
    requires Local(i, p) && Link(c, ch, i, p) && c != i
    ensures CountRight(p')
  {
    hide PlaceRight, ExitRight, LinkExit, LinkHold;
  }

  lemma DownParentRest(c: Inst, ch: Proc, ch': Proc, i: Inst, p: Proc, p': Proc)
    requires DownStep(c, ch, ch', i, p, p') && Target(p.pc) == Some(c)
    requires Local(i, p) && Link(c, ch, i, p) && c != i
    ensures HoldRight(i, p') && PlaceRight(i, p') && ExitRight(p')
  {
    hide CountRight, LinkExit, LinkHold, LinkCount;
  }

  lemma DownParent(c: Inst, ch: Proc, ch': Proc, i: Inst, p: Proc, p': Proc)
    requires DownStep(c, ch, ch', i, p, p') && Target(p.pc) == Some(c)
    requires Local(i, p) && Link(c, ch, i, p) && c != i
    ensures Local(i, p')
  {
    hide DownStep, PlaceRight, HoldRight, CountRight, ExitRight;
    DownParentCount(c, ch, ch', i, p, p');
    DownParentRest(c, ch, ch', i, p, p');
  }

  lemma DownLinkCount(c: Inst, ch: Proc, ch': Proc, i: Inst, p: Proc, p': Proc)
    requires DownStep(c, ch, ch', i, p, p') && Target(p.pc) == Some(c)
    requires Local(c, ch) && Local(i, p) && Link(c, ch, i, p) && c != i
    ensures LinkCount(c, ch', p')
  {
    hide Local, LinkHold, LinkExit;
  }

  lemma DownLinkHoldUp(c: Inst, ch: Proc, ch': Proc, i: Inst, p: Proc, p': Proc)
    requires DownStep(c, ch, ch', i, p, p') && Target(p.pc) == Some(c)
    requires HoldRight(c, ch) && HoldRight(i, p) && LinkHold(c, ch, i, p) && c != i && (p.pc.Fork? ==> ch.pc == NotStarted)
    ensures HoldsUp(c, ch', p')
  {
    hide DownStep, HoldsDown;
    DownShape(c, ch, ch', i, p, p');
  }

  lemma DownLinkHoldDown(c: Inst, ch: Proc, ch': Proc, i: Inst, p: Proc, p': Proc)
    requires DownStep(c, ch, ch', i, p, p') && Target(p.pc) == Some(c)
    requires HoldRight(c, ch) && HoldRight(i, p) && LinkHold(c, ch, i, p) && c != i && (p.pc.Fork? ==> ch.pc == NotStarted)
    ensures HoldsDown(c, ch', i, p')
  {
    hide HoldsUp;
  }

  lemma DownLinkHold(c: Inst, ch: Proc, ch': Proc, i: Inst, p: Proc, p': Proc)
    requires DownStep(c, ch, ch', i, p, p') && Target(p.pc) == Some(c)
    requires HoldRight(c, ch) && HoldRight(i, p) && LinkHold(c, ch, i, p) && c != i && (p.pc.Fork? ==> ch.pc == NotStarted)
    ensures LinkHold(c, ch', i, p')
  {
    hide DownStep, HoldsUp, HoldsDown;
    DownLinkHoldUp(c, ch, ch', i, p, p');
    DownLinkHoldDown(c, ch, ch', i, p, p');
  }

  lemma HoldFacts(c: Inst, ch: Proc, i: Inst, p: Proc)
    requires Local(c, ch) && Local(i, p) && Link(c, ch, i, p) && Target(p.pc) == Some(c)
    ensures HoldRight(c, ch) && HoldRight(i, p) && LinkHold(c, ch, i, p) && (p.pc.Fork? ==> ch.pc == NotStarted)
  {
    hide HoldRight, LinkHold, LinkExit;
  }

  lemma DownLinkExit(c: Inst, ch: Proc, ch': Proc, i: Inst, p: Proc, p': Proc)
    requires DownStep(c, ch, ch', i, p, p') && Target(p.pc) == Some(c)
    requires Local(c, ch) && Local(i, p) && Link(c, ch, i, p) && c != i
    ensures LinkExit(c, ch', p')
  {
  }

  lemma DownLink(c: Inst, ch: Proc, ch': Proc, i: Inst, p: Proc, p': Proc)
    requires DownStep(c, ch, ch', i, p, p') && Target(p.pc) == Some(c)
    requires Local(c, ch) && Local(i, p) && Link(c, ch, i, p) && c != i
    ensures Link(c, ch', i, p')
  {
    hide LinkCount, LinkHold, LinkExit, Local, OwnStep, DownStep, UpStep;
    DownLinkCount(c, ch, ch', i, p, p');
    HoldFacts(c, ch, i, p);
    DownLinkHold(c, ch, ch', i, p, p');
    DownLinkExit(c, ch, ch', i, p, p');
  }

  lemma DownSiblingCount(c: Inst, ch: Proc, ch': Proc, i: Inst, p: Proc, p': Proc, d: Inst, x: Proc)
    requires DownStep(c, ch, ch', i, p, p') && Target(p.pc) == Some(c)
    requires Local(i, p) && c != i
    requires Link(d, x, i, p) && d != c && d != i
    ensures LinkCount(d, x, p')
  {
    hide Local, LinkHold, LinkExit;
  }

  lemma DownSiblingHold(c: Inst, ch: Proc, ch': Proc, i: Inst, p: Proc, p': Proc, d: Inst, x: Proc)
    requires DownStep(c, ch, ch', i, p, p') && Target(p.pc) == Some(c)
    requires Local(i, p) && c != i
    requires Link(d, x, i, p) && d != c && d != i
    ensures LinkHold(d, x, i, p')
  {
    hide LinkCount, LinkExit;
  }

  lemma DownSiblingExit(c: Inst, ch: Proc, ch': Proc, i: Inst, p: Proc, p': Proc, d: Inst, x: Proc)
    requires DownStep(c, ch, ch', i, p, p') && Target(p.pc) == Some(c)
    requires Local(i, p) && c != i
    requires Link(d, x, i, p) && d != c && d != i
    ensures LinkExit(d, x, p')
  {
  }

  lemma DownSibling(c: Inst, ch: Proc, ch': Proc, i: Inst, p: Proc, p': Proc, d: Inst, x: Proc)
    requires DownStep(c, ch, ch', i, p, p') && Target(p.pc) == Some(c)
    requires Local(i, p) && c != i
    requires Link(d, x, i, p) && d != c && d != i
    ensures Link(d, x, i, p')
  {
    hide LinkCount, LinkHold, LinkExit, Local, OwnStep, DownStep, UpStep;
    DownSiblingCount(c, ch, ch', i, p, p', d, x);
    DownSiblingHold(c, ch, ch', i, p, p', d, x);
    DownSiblingExit(c, ch, ch', i, p, p', d, x);
  }

  lemma DownAbove(c: Inst, ch: Proc, ch': Proc, i: Inst, p: Proc, p': Proc, j: Inst, par: Proc)
    requires DownStep(c, ch, ch', i, p, p') && Target(p.pc) == Some(c)
    requires Local(i, p) && c != i
    requires Link(i, p, j, par) && j != i && j != c
    ensures Link(i, p', j, par)
  {
    hide DownStep;
    DownShape(c, ch, ch', i, p, p');
  }

  lemma DownBelowHold(c: Inst, ch: Proc, ch': Proc, i: Inst, p: Proc, p': Proc, d: Inst, x: Proc)
    requires DownStep(c, ch, ch', i, p, p') && Target(p.pc) == Some(c)
    requires Local(c, ch) && Link(c, ch, i, p) && c != i
    requires Link(d, x, c, ch) && d != c && d != i
    ensures LinkHold(d, x, c, ch')
  {
    hide PlaceRight, CountRight, ExitRight, LinkExit;
  }

  lemma DownBelowRest(c: Inst, ch: Proc, ch': Proc, i: Inst, p: Proc, p': Proc, d: Inst, x: Proc)
    requires DownStep(c, ch, ch', i, p, p') && Target(p.pc) == Some(c)
    requires Local(c, ch) && Link(c, ch, i, p) && c != i
    requires Link(d, x, c, ch) && d != c && d != i
    ensures LinkCount(d, x, ch') && LinkExit(d, x, ch')
  {
    hide DownStep, LinkHold;
    DownShape(c, ch, ch', i, p, p');
  }

  lemma DownBelow(c: Inst, ch: Proc, ch': Proc, i: Inst, p: Proc, p': Proc, d: Inst, x: Proc)
    requires DownStep(c, ch, ch', i, p, p') && Target(p.pc) == Some(c)
    requires Local(c, ch) && Link(c, ch, i, p) && c != i
    requires Link(d, x, c, ch) && d != c && d != i
    ensures Link(d, x, c, ch')
  {
    hide DownStep, LinkCount, LinkHold, LinkExit;
    DownBelowHold(c, ch, ch', i, p, p', d, x);
    DownBelowRest(c, ch, ch', i, p, p', d, x);
  }

  lemma UpChild(c: Inst, ch: Proc, ch': Proc, i: Inst, p: Proc, p': Proc)
    requires UpStep(c, ch, ch', i, p, p') && UpPc(ch.pc)
    requires Local(c, ch) && Local(i, p) && Link(c, ch, i, p) && c != i
    ensures Local(c, ch')
  {
    hide UpStep;
    UpShape(c, ch, ch', i, p, p');
  }

  lemma UpParentHold(c: Inst, ch: Proc, ch': Proc, i: Inst, p: Proc, p': Proc)
    requires UpStep(c, ch, ch', i, p, p') && UpPc(ch.pc)
    requires Local(c, ch) && Local(i, p) && Link(c, ch, i, p) && c != i
    ensures HoldRight(i, p')
  {
    hide PlaceRight, CountRight, ExitRight, LinkExit, LinkCount;
  }

  lemma UpParentCount(c: Inst, ch: Proc, ch': Proc, i: Inst, p: Proc, p': Proc)
    requires UpStep(c, ch, ch', i, p, p') && UpPc(ch.pc)
    requires Local(c, ch) && Local(i, p) && Link(c, ch, i, p) && c != i
    ensures CountRight(p')
  {
    hide PlaceRight, ExitRight, LinkExit;
  }

  lemma UpParentExit(c: Inst, ch: Proc, ch': Proc, i: Inst, p: Proc, p': Proc)
    requires UpStep(c, ch, ch', i, p, p') && UpPc(ch.pc)
    requires Local(c, ch) && Local(i, p) && Link(c, ch, i, p) && c != i
    ensures PlaceRight(i, p') && ExitRight(p')
  {
    hide HoldRight, CountRight, LinkCount, LinkHold;
  }

  lemma UpParent(c: Inst, ch: Proc, ch': Proc, i: Inst, p: Proc, p': Proc)
    requires UpStep(c, ch, ch', i, p, p') && UpPc(ch.pc)
    requires Local(c, ch) && Local(i, p) && Link(c, ch, i, p) && c != i
    ensures Local(i, p')
  {
    hide UpStep, PlaceRight, HoldRight, CountRight, ExitRight;
    UpParentHold(c, ch, ch', i, p, p');
    UpParentCount(c, ch, ch', i, p, p');
    UpParentExit(c, ch, ch', i, p, p');
  }

  lemma UpLinkCount(c: Inst, ch: Proc, ch': Proc, i: Inst, p: Proc, p': Proc)
    requires UpStep(c, ch, ch', i, p, p') && UpPc(ch.pc)
    requires Local(c, ch) && Local(i, p) && Link(c, ch, i, p) && c != i
    ensures LinkCount(c, ch', p')
  {
    hide Local, LinkHold, LinkExit;
  }

  lemma UpLinkHoldUp(c: Inst, ch: Proc, ch': Proc, i: Inst, p: Proc, p': Proc)
    requires UpStep(c, ch, ch', i, p, p') && UpPc(ch.pc)
    requires Local(c, ch) && Local(i, p) && Link(c, ch, i, p) && c != i
    ensures HoldsUp(c, ch', p')
  {
    hide PlaceRight, CountRight, ExitRight, LinkCount, LinkExit, HoldsDown;
  }

  lemma UpLinkHoldDown(c: Inst, ch: Proc, ch': Proc, i: Inst, p: Proc, p': Proc)
    requires UpStep(c, ch, ch', i, p, p') && UpPc(ch.pc)
    requires Local(c, ch) && Local(i, p) && Link(c, ch, i, p) && c != i
    ensures HoldsDown(c, ch', i, p')
  {
    hide UpStep, Local, LinkCount, LinkExit, HoldsUp;
    UpShape(c, ch, ch', i, p, p');
  }

  lemma UpLinkHold(c: Inst, ch: Proc, ch': Proc, i: Inst, p: Proc, p': Proc)
    requires UpStep(c, ch, ch', i, p, p') && UpPc(ch.pc)
    requires Local(c, ch) && Local(i, p) && Link(c, ch, i, p) && c != i
    ensures LinkHold(c, ch', i, p')
  {
    hide UpStep, HoldsUp, HoldsDown;
    UpLinkHoldUp(c, ch, ch', i, p, p');
    UpLinkHoldDown(c, ch, ch', i, p, p');
  }

  lemma UpLinkExit(c: Inst, ch: Proc, ch': Proc, i: Inst, p: Proc, p': Proc)
    requires UpStep(c, ch, ch', i, p, p') && UpPc(ch.pc)
    requires Local(c, ch) && Local(i, p) && Link(c, ch, i, p) && c != i
    ensures LinkExit(c, ch', p')
  {
    hide UpStep, PlaceRight, HoldRight, CountRight, LinkCount, LinkHold;
    UpShape(c, ch, ch', i, p, p');
  }

  lemma UpLink(c: Inst, ch: Proc, ch': Proc, i: Inst, p: Proc, p': Proc)
    requires UpStep(c, ch, ch', i, p, p') && UpPc(ch.pc)
    requires Local(c, ch) && Local(i, p) && Link(c, ch, i, p) && c != i
    ensures Link(c, ch', i, p')
  {
    hide UpStep, LinkCount, LinkHold, LinkExit;
    UpLinkCount(c, ch, ch', i, p, p');
    UpLinkHold(c, ch, ch', i, p, p');
    UpLinkExit(c, ch, ch', i, p, p');
  }

  lemma UpSiblingCount(c: Inst, ch: Proc, ch': Proc, i: Inst, p: Proc, p': Proc, d: Inst, x: Proc)
    requires UpStep(c, ch, ch', i, p, p') && UpPc(ch.pc)
    requires Local(c, ch) && Local(i, p) && Link(c, ch, i, p) && c != i
    requires Link(d, x, i, p) && d != c && d != i
    ensures LinkCount(d, x, p')
  {
    hide Local, LinkHold, LinkExit;
  }

  lemma UpSiblingHold(c: Inst, ch: Proc, ch': Proc, i: Inst, p: Proc, p': Proc, d: Inst, x: Proc)
    requires UpStep(c, ch, ch', i, p, p') && UpPc(ch.pc)
    requires Local(c, ch) && Local(i, p) && Link(c, ch, i, p) && c != i
    requires Link(d, x, i, p) && d != c && d != i
    ensures LinkHold(d, x, i, p')
  {
    hide PlaceRight, CountRight, ExitRight, LinkCount, LinkExit;
  }

  lemma UpSiblingExit(c: Inst, ch: Proc, ch': Proc, i: Inst, p: Proc, p': Proc, d: Inst, x: Proc)
    requires UpStep(c, ch, ch', i, p, p') && UpPc(ch.pc)
    requires Local(c, ch) && Local(i, p) && Link(c, ch, i, p) && c != i
    requires Link(d, x, i, p) && d != c && d != i
    ensures LinkExit(d, x, p')
  {
    hide UpStep, Local, LinkCount, LinkHold;
    UpShape(c, ch, ch', i, p, p');
  }

  lemma UpSibling(c: Inst, ch: Proc, ch': Proc, i: Inst, p: Proc, p': Proc, d: Inst, x: Proc)
    requires UpStep(c, ch, ch', i, p, p') && UpPc(ch.pc)
    requires Local(c, ch) && Local(i, p) && Link(c, ch, i, p) && c != i
    requires Link(d, x, i, p) && d != c && d != i
    ensures Link(d, x, i, p')
  {
    hide UpStep, LinkCount, LinkHold, LinkExit;
    UpSiblingCount(c, ch, ch', i, p, p', d, x);
    UpSiblingHold(c, ch, ch', i, p, p', d, x);
    UpSiblingExit(c, ch, ch', i, p, p', d, x);
  }

  lemma UpAboveHold(c: Inst, ch: Proc, ch': Proc, i: Inst, p: Proc, p': Proc, j: Inst, par: Proc)
    requires UpStep(c, ch, ch', i, p, p') && UpPc(ch.pc)
    requires Local(c, ch) && Local(i, p) && Link(c, ch, i, p) && c != i
    requires Link(i, p, j, par) && j != i && j != c
    ensures LinkHold(i, p', j, par)
  {
    hide PlaceRight, CountRight, ExitRight, LinkCount, LinkExit;
  }

  lemma UpAboveRest(c: Inst, ch: Proc, ch': Proc, i: Inst, p: Proc, p': Proc, j: Inst, par: Proc)
    requires UpStep(c, ch, ch', i, p, p') && UpPc(ch.pc)
    requires Local(c, ch) && Local(i, p) && Link(c, ch, i, p) && c != i
    requires Link(i, p, j, par) && j != i && j != c
    ensures LinkCount(i, p', par) && LinkExit(i, p', par)
  {
    hide UpStep, Local, LinkHold;
    UpShape(c, ch, ch', i, p, p');
  }

  lemma UpAbove(c: Inst, ch: Proc, ch': Proc, i: Inst, p: Proc, p': Proc, j: Inst, par: Proc)
    requires UpStep(c, ch, ch', i, p, p') && UpPc(ch.pc)
    requires Local(c, ch) && Local(i, p) && Link(c, ch, i, p) && c != i
    requires Link(i, p, j, par) && j != i && j != c
    ensures Link(i, p', j, par)
  {
    hide UpStep, LinkCount, LinkHold, LinkExit;
    UpAboveHold(c, ch, ch', i, p, p', j, par);
    UpAboveRest(c, ch, ch', i, p, p', j, par);
  }

  lemma UpBelow(c: Inst, ch: Proc, ch': Proc, i: Inst, p: Proc, p': Proc, d: Inst, x: Proc)
    requires UpStep(c, ch, ch', i, p, p') && UpPc(ch.pc)
    requires Local(c, ch) && Local(i, p) && Link(c, ch, i, p) && c != i
    requires Link(d, x, c, ch) && d != c && d != i
    ensures Link(d, x, c, ch')
  {
    hide UpStep;
    UpShape(c, ch, ch', i, p, p');
  }

  // ---- all blocks ----

  lemma Facts(v: State, x: Inst)
    requires Inv(v) && Is(v, x)
    ensures Local(x, v.procs[x]) && Refers(v, x, v.procs[x]) && Listed(v, x, v.procs[x])
  {
    hide Local, Refers, Listed, Link;
  }

  lemma LinkFact(v: State, c: Inst, x: Inst)
    requires Inv(v) && Child(v, c, x)
    ensures Link(c, v.procs[c], x, v.procs[x])
  {
    hide Local, Refers, Listed, Link;
  }

  /** Everyone keeps their parent. */
  ghost predicate SameFamily(v: State, w: State)
  {
    |w.procs| == |v.procs| && forall x :: 0 <= x < |v.procs| ==> w.procs[x].parent == v.procs[x].parent
  }

  lemma SameChildren(v: State, w: State, c: Inst, x: Inst)
    requires SameFamily(v, w)
    ensures Child(v, c, x) == Child(w, c, x)
  {
  }

  lemma SameRefers(v: State, w: State, x: Inst, p: Proc)
    requires SameFamily(v, w) && Refers(v, x, p)
    ensures Refers(w, x, p)
  {
    forall c: Inst, y: Inst ensures Child(v, c, y) == Child(w, c, y) {
      SameChildren(v, w, c, y);
    }
  }

  /** The block of `i` has become `q`, and fits with the others. */
  lemma OneChanged(v: State, w: State, i: Inst, q: Proc)
    requires Inv(v) && Is(v, i) && w.procs == v.procs[i := q] && q.parent == v.procs[i].parent
    requires forall c: Inst {:trigger Child(v, c, i)} :: Child(v, c, i) ==> Link(c, v.procs[c], i, q)
    requires forall j: Inst {:trigger Child(v, i, j)} :: Child(v, i, j) ==> Link(i, q, j, v.procs[j])
    ensures Links(w)
  {
    hide Link, Local, Refers, Listed;
    forall c: Inst, x: Inst | Child(w, c, x) ensures Link(c, w.procs[c], x, w.procs[x]) {
      SameChildren(v, w, c, x);
      ChildApart(v, c, x);
      LinkFact(v, c, x);
    }
  }

  lemma ChildApart(v: State, c: Inst, x: Inst)
    requires Child(v, c, x)
    ensures x < c < |v.procs|
  {
  }

  /** The blocks of `c` and its parent `i` have changed. */
  lemma TwoChanged(v: State, w: State, c: Inst, ch: Proc, i: Inst, p: Proc)
    requires Inv(v) && Child(v, c, i) && w.procs == v.procs[c := ch][i := p]
    requires ch.parent == v.procs[c].parent && p.parent == v.procs[i].parent
    requires Link(c, ch, i, p)
    requires forall d: Inst {:trigger Child(v, d, i)} :: Child(v, d, i) && d != c ==> Link(d, v.procs[d], i, p)
    requires forall j: Inst {:trigger Child(v, i, j)} :: Child(v, i, j) ==> Link(i, p, j, v.procs[j])
    requires forall d: Inst {:trigger Child(v, d, c)} :: Child(v, d, c) ==> Link(d, v.procs[d], c, ch)
    ensures Links(w)
  {
    hide Link, Local, Refers, Listed;
    ChildApart(v, c, i);
    forall d: Inst, x: Inst | Child(w, d, x) ensures Link(d, w.procs[d], x, w.procs[x]) {
      SameChildren(v, w, d, x);
      ChildApart(v, d, x);
      LinkFact(v, d, x);
      if d == c {
        OnlyParent(v, c, x, i);
      }
    }
  }

  lemma OnlyParent(v: State, c: Inst, x: Inst, i: Inst)
    requires Child(v, c, x) && Child(v, c, i)
    ensures x == i
  {
  }

  /** A process that has not counted itself out finds its parent's block; a child's block stays until its parent exits. */
  lemma ParentThere(c: Inst, ch: Proc, i: Inst, p: Proc)
    requires Local(i, p) && Link(c, ch, i, p) && ch.pc != NotStarted && (!PastSub(ch.pc) || ch.pc.DecTest?)
    ensures !Taken(p.pc) && !p.deleted
  {
    if !PastSub(ch.pc) {
      assert c in p.pending;
    }
  }

  lemma ChildThere(c: Inst, ch: Proc, i: Inst, p: Proc)
    requires Local(c, ch) && Link(c, ch, i, p) && !Released(p.pc)
    ensures !ch.deleted
  {
  }

  /** The other blocks are as they were. */
  lemma OthersFit(v: State, w: State, x: Inst)
    requires Inv(v) && SameFamily(v, w) && Is(v, x) && w.procs[x] == v.procs[x]
    requires w.table == v.table && w.reserved == v.reserved
    ensures Local(x, w.procs[x]) && Refers(w, x, w.procs[x]) && Listed(w, x, w.procs[x])
  {
    hide Inv, Local, Refers, SameFamily;
    Facts(v, x);
    SameRefers(v, w, x, v.procs[x]);
  }

  // Steps on the process's own block.

  lemma OwnRefers(v: State, i: Inst, p: Proc, q: Proc)
    requires OwnStep(i, p, q) && Refers(v, i, p)
    ensures Refers(v, i, q)
  {
    hide OwnStep, Child, PcRefers;
    OwnShape(i, p, q);
    OwnPcRefers(v, i, p, q);
  }

  lemma OwnPcRefers(v: State, i: Inst, p: Proc, q: Proc)
    requires OwnStep(i, p, q) && PcRefers(v, i, p.pc)
    ensures PcRefers(v, i, q.pc)
  {
    hide OwnStep, Child;
    OwnShape(i, p, q);
  }

  lemma OwnFields(i: Inst, p: Proc, q: Proc)
    requires OwnStep(i, p, q)
    ensures q.parent == p.parent && q.pid == p.pid && q.deleted == p.deleted && !q.pc.Slot?
    ensures CodeSet(p) ==> CodeSet(q) && q.code == p.code
  {
    hide OwnStep;
    OwnShape(i, p, q);
  }

  lemma OwnBlocks(v: State, w: State, i: Inst)
    requires Inv(v) && Own(v, w, i)
    ensures Blocks(w) && JoinsRight(w) && Slots(w)
  {
    hide Local, Refers, Link, OwnStep, CodeSet;
    var p, q := v.procs[i], w.procs[i];
    Facts(v, i);
    OwnLocal(i, p, q);
    OwnRefers(v, i, p, q);
    OwnFields(i, p, q);
    assert SameFamily(v, w);
    SameRefers(v, w, i, q);
    forall x: Inst | Is(w, x) && x != i
      ensures Local(x, w.procs[x]) && Refers(w, x, w.procs[x]) && Listed(w, x, w.procs[x])
    {
      OthersFit(v, w, x);
    }
  }

  lemma OwnLinks(v: State, w: State, i: Inst)
    requires Inv(v) && Own(v, w, i)
    ensures Links(w)
  {
    hide Inv, Local, Refers, Link, Links, OwnStep, Listed;
    var p, q := v.procs[i], w.procs[i];
    Facts(v, i);
    OwnFields(i, p, q);
    forall c: Inst | Child(v, c, i) ensures Link(c, v.procs[c], i, q) {
      LinkFact(v, c, i);
      OwnAsParent(c, v.procs[c], i, p, q);
    }
    forall j: Inst | Child(v, i, j) ensures Link(i, q, j, v.procs[j]) {
      LinkFact(v, i, j);
      OwnAsChild(i, p, q, j, v.procs[j]);
    }
    OneChanged(v, w, i, q);
  }

  lemma OwnAsserts(v: State, w: State, i: Inst)
    requires Inv(v) && Own(v, w, i)
    ensures w.asserts
  {
    hide Inv, Local, Link;
    Facts(v, i);
    if v.procs[i].pc.ExitExit? && v.procs[i].parent.Some? {
      var j := v.procs[i].parent.value;
      Facts(v, j);
      LinkFact(v, i, j);
      ParentThere(i, v.procs[i], j, v.procs[j]);
    }
    InvAsserts(v);
  }

  lemma InvAsserts(v: State)
    requires Inv(v)
    ensures v.asserts && Slots(v) && JoinsRight(v)
  {
  }

  // Steps of parent and child on each other's blocks.

  lemma DownRefers(v: State, c: Inst, ch: Proc, ch': Proc, i: Inst, p: Proc, p': Proc)
    requires DownStep(c, ch, ch', i, p, p') && Target(p.pc) == Some(c)
    requires Refers(v, c, ch) && Refers(v, i, p) && Child(v, c, i)
    ensures Refers(v, c, ch') && Refers(v, i, p')
  {
    hide DownStep, Child;
    DownShape(c, ch, ch', i, p, p');
  }

  lemma DownFields(c: Inst, ch: Proc, ch': Proc, i: Inst, p: Proc, p': Proc)
    requires DownStep(c, ch, ch', i, p, p') && Target(p.pc) == Some(c)
    ensures ch'.parent == ch.parent && ch'.pid == ch.pid && ch'.deleted == ch.deleted && (ch'.pc.Slot? ==> ch'.pc == ch.pc)
    ensures p'.parent == p.parent && p'.pid == p.pid && p'.deleted == p.deleted && !p'.pc.Slot?
  {
    hide DownStep;
    DownShape(c, ch, ch', i, p, p');
  }

  lemma DownCode(c: Inst, ch: Proc, ch': Proc, i: Inst, p: Proc, p': Proc)
    requires DownStep(c, ch, ch', i, p, p') && Target(p.pc) == Some(c) && Link(c, ch, i, p)
    ensures !CodeSet(p) && (CodeSet(ch) ==> CodeSet(ch') && ch'.code == ch.code)
  {
    hide LinkHold, LinkExit;
  }

  lemma DownSafe(v: State, w: State, i: Inst) returns (c: Inst)
    requires Inv(v) && Down(v, w, i)
    ensures Target(v.procs[i].pc) == Some(c) && Child(v, c, i) && !v.procs[c].deleted
  {
    hide Inv, Local, Link, Listed;
    Facts(v, i);
    c := Target(v.procs[i].pc).value;
    Facts(v, c);
    LinkFact(v, c, i);
    ChildThere(c, v.procs[c], i, v.procs[i]);
  }

  lemma DownBlocks(v: State, w: State, i: Inst)
    requires Inv(v) && Down(v, w, i)
    ensures Blocks(w) && JoinsRight(w) && Slots(w) && w.asserts && w.dangling == v.dangling
  {
    hide Local, Refers, Link, DownStep, CodeSet;
    var c := DownSafe(v, w, i);
    Facts(v, i);
    Facts(v, c);
    LinkFact(v, c, i);
    DownRefers(v, c, v.procs[c], w.procs[c], i, v.procs[i], w.procs[i]);
    DownFields(c, v.procs[c], w.procs[c], i, v.procs[i], w.procs[i]);
    DownCode(c, v.procs[c], w.procs[c], i, v.procs[i], w.procs[i]);
    DownChild(c, v.procs[c], w.procs[c], i, v.procs[i], w.procs[i]);
    DownParent(c, v.procs[c], w.procs[c], i, v.procs[i], w.procs[i]);
    assert SameFamily(v, w);
    SameRefers(v, w, i, w.procs[i]);
    SameRefers(v, w, c, w.procs[c]);
    forall x: Inst | Is(w, x) && x != i && x != c
      ensures Local(x, w.procs[x]) && Refers(w, x, w.procs[x]) && Listed(w, x, w.procs[x])
    {
      OthersFit(v, w, x);
    }
  }

  lemma DownLinks(v: State, w: State, i: Inst)
    requires Inv(v) && Down(v, w, i)
    ensures Links(w)
  {
    hide Inv, Local, Refers, Link, Links, DownStep, Listed;
    var c := DownSafe(v, w, i);
    var ch, ch', p, p' := v.procs[c], w.procs[c], v.procs[i], w.procs[i];
    Facts(v, i);
    Facts(v, c);
    LinkFact(v, c, i);
    DownFields(c, ch, ch', i, p, p');
    DownLink(c, ch, ch', i, p, p');
    forall d: Inst | Child(v, d, i) && d != c ensures Link(d, v.procs[d], i, p') {
      LinkFact(v, d, i);
      DownSibling(c, ch, ch', i, p, p', d, v.procs[d]);
    }
    forall j: Inst | Child(v, i, j) ensures Link(i, p', j, v.procs[j]) {
      LinkFact(v, i, j);
      DownAbove(c, ch, ch', i, p, p', j, v.procs[j]);
    }
    forall d: Inst | Child(v, d, c) ensures Link(d, v.procs[d], c, ch') {
      LinkFact(v, d, c);
      DownBelow(c, ch, ch', i, p, p', d, v.procs[d]);
    }
    TwoChanged(v, w, c, ch', i, p');
  }

  lemma UpRefers(v: State, c: Inst, ch: Proc, ch': Proc, i: Inst, p: Proc, p': Proc)
    requires UpStep(c, ch, ch', i, p, p') && UpPc(ch.pc) && Refers(v, c, ch) && Refers(v, i, p) && Child(v, c, i)
    ensures Refers(v, c, ch') && Refers(v, i, p')
  {
    hide UpStep, Child;
    UpShape(c, ch, ch', i, p, p');
  }

  lemma UpFields(c: Inst, ch: Proc, ch': Proc, i: Inst, p: Proc, p': Proc)
    requires UpStep(c, ch, ch', i, p, p') && UpPc(ch.pc)
    ensures ch'.parent == ch.parent && ch'.pid == ch.pid && ch'.deleted == ch.deleted && !ch'.pc.Slot?
    ensures p'.parent == p.parent && p'.pid == p.pid && p'.deleted == p.deleted && p'.pc == p.pc
    ensures CodeSet(p) ==> CodeSet(p') && p'.code == p.code
    ensures CodeSet(ch) ==> CodeSet(ch') && ch'.code == ch.code
  {
    hide UpStep;
    UpShape(c, ch, ch', i, p, p');
  }

  lemma UpBlocks(v: State, w: State, c: Inst, i: Inst)
    requires Inv(v) && Up(v, w, c) && v.procs[c].parent == Some(i) && !v.procs[i].deleted
    ensures Blocks(w) && JoinsRight(w) && Slots(w) && w.asserts
  {
    hide Local, Refers, Link, UpStep, CodeSet;
    assert Child(v, c, i);
    Facts(v, i);
    Facts(v, c);
    LinkFact(v, c, i);
    UpRefers(v, c, v.procs[c], w.procs[c], i, v.procs[i], w.procs[i]);
    UpFields(c, v.procs[c], w.procs[c], i, v.procs[i], w.procs[i]);
    UpChild(c, v.procs[c], w.procs[c], i, v.procs[i], w.procs[i]);
    UpParent(c, v.procs[c], w.procs[c], i, v.procs[i], w.procs[i]);
    assert SameFamily(v, w);
    SameRefers(v, w, i, w.procs[i]);
    SameRefers(v, w, c, w.procs[c]);
    forall x: Inst | Is(w, x) && x != i && x != c
      ensures Local(x, w.procs[x]) && Refers(w, x, w.procs[x]) && Listed(w, x, w.procs[x])
    {
      OthersFit(v, w, x);
    }
  }

  lemma UpLinks(v: State, w: State, c: Inst, i: Inst)
    requires Inv(v) && Up(v, w, c) && v.procs[c].parent == Some(i) && !v.procs[i].deleted
    ensures Links(w)
  {
    hide Inv, Local, Refers, Link, Links, UpStep, Listed;
    assert Child(v, c, i);
    var ch, ch', p, p' := v.procs[c], w.procs[c], v.procs[i], w.procs[i];
    Facts(v, i);
    Facts(v, c);
    LinkFact(v, c, i);
    UpFields(c, ch, ch', i, p, p');
    UpLink(c, ch, ch', i, p, p');
    forall d: Inst | Child(v, d, i) && d != c ensures Link(d, v.procs[d], i, p') {
      LinkFact(v, d, i);
      UpSibling(c, ch, ch', i, p, p', d, v.procs[d]);
    }
    forall j: Inst | Child(v, i, j) ensures Link(i, p', j, v.procs[j]) {
      LinkFact(v, i, j);
      UpAbove(c, ch, ch', i, p, p', j, v.procs[j]);
    }
    forall d: Inst | Child(v, d, c) ensures Link(d, v.procs[d], c, ch') {
      LinkFact(v, d, c);
      UpBelow(c, ch, ch', i, p, p', d, v.procs[d]);
    }
    TwoChanged(v, w, c, ch', i, p');
  }

  lemma SameProcs(v: State, w: State)
    requires Inv(v) && w == v.(dangling := w.dangling, halted := w.halted)
    ensures Inv(w)
  {
    hide Local, Link, Inv;
    InvAsserts(v);
    forall x: Inst | Is(w, x) ensures Local(x, w.procs[x]) && Refers(w, x, w.procs[x]) && Listed(w, x, w.procs[x]) {
      assert Is(v, x);
      Facts(v, x);
    }
    forall c: Inst, x: Inst | Child(w, c, x) ensures Link(c, w.procs[c], x, w.procs[x]) {
      assert Child(v, c, x);
      LinkFact(v, c, x);
    }
    InvFrom(w);
  }

  lemma InvFrom(v: State)
    requires v.asserts && Slots(v) && JoinsRight(v) && Blocks(v) && Links(v)
    ensures Inv(v)
  {
  }

  // The calls.

  /** Between two actions outside Exec and Exit. */
  ghost predicate Quiet(p: Proc, q: Proc)
  {
    (p.pc == User || p.pc.JoinRead?) && (q.pc == User || q.pc.Slot? || q.pc.JoinP?) && q == p.(pc := q.pc)
  }

  ghost predicate StartsExit(p: Proc, q: Proc)
  {
    p.pc == User && q == p.(pc := ExitSet, code := q.code)
  }

  ghost predicate Leaves(p: Proc, q: Proc)
  {
    p.pc == Remove && q == p.(deleted := true, pc := Gone)
  }

  lemma PcLocal(i: Inst, p: Proc, q: Proc)
    requires (Quiet(p, q) || StartsExit(p, q) || Leaves(p, q)) && Local(i, p)
    ensures Local(i, q) && q.parent == p.parent && q.pid == p.pid
    ensures CodeSet(p) ==> CodeSet(q) && q.code == p.code
  {
  }

  lemma PcAsParent(c: Inst, ch: Proc, i: Inst, p: Proc, q: Proc)
    requires (Quiet(p, q) || StartsExit(p, q) || Leaves(p, q)) && Link(c, ch, i, p)
    ensures Link(c, ch, i, q)
  {
  }

  lemma PcAsChild(i: Inst, p: Proc, q: Proc, j: Inst, par: Proc)
    requires (Quiet(p, q) || StartsExit(p, q) || Leaves(p, q)) && Link(i, p, j, par) && Local(i, p)
    ensures Link(i, q, j, par)
  {
  }

  lemma PcLinks(v: State, w: State, i: Inst, q: Proc)
    requires Inv(v) && Is(v, i) && w.procs == v.procs[i := q]
    requires Quiet(v.procs[i], q) || StartsExit(v.procs[i], q) || Leaves(v.procs[i], q)
    ensures Links(w)
  {
    hide Inv, Local, Refers, Link, Links, Listed;
    var p := v.procs[i];
    Facts(v, i);
    forall c: Inst | Child(v, c, i) ensures Link(c, v.procs[c], i, q) {
      LinkFact(v, c, i);
      PcAsParent(c, v.procs[c], i, p, q);
    }
    forall j: Inst | Child(v, i, j) ensures Link(i, q, j, v.procs[j]) {
      LinkFact(v, i, j);
      PcAsChild(i, p, q, j, v.procs[j]);
    }
    OneChanged(v, w, i, q);
  }

  /** The block of `i` changes in its pc; the table may change for `i` only. */
  lemma PcBlocks(v: State, w: State, i: Inst, q: Proc)
    requires Inv(v) && Is(v, i) && w.procs == v.procs[i := q]
    requires Quiet(v.procs[i], q) || StartsExit(v.procs[i], q) || Leaves(v.procs[i], q)
    requires Refers(v, i, q) && Listed(w, i, q)
    requires forall x: Inst {:trigger Is(v, x)} :: Is(v, x) && x != i ==> Listed(w, x, v.procs[x])
    ensures Blocks(w)
  {
    hide Inv, Local, Refers, Link, Listed;
    Facts(v, i);
    PcLocal(i, v.procs[i], q);
    assert SameFamily(v, w);
    SameRefers(v, w, i, q);
    forall x: Inst | Is(w, x) && x != i
      ensures Local(x, w.procs[x]) && Refers(w, x, w.procs[x]) && Listed(w, x, w.procs[x])
    {
      assert Is(v, x);
      Facts(v, x);
      SameRefers(v, w, x, v.procs[x]);
    }
  }

  lemma BeginExecKeeps(v: State, w: State, i: Inst, slot: nat)
    requires Inv(v) && BeginExec(v, w, i, slot)
    ensures Inv(w)
  {
    hide Inv, Local, Link, CodeSet;
    var q := w.procs[i];
    InvAsserts(v);
    Facts(v, i);
    PcLocal(i, v.procs[i], q);
    forall x: Inst | Is(v, x) && x != i ensures Listed(w, x, v.procs[x]) {
      Facts(v, x);
    }
    PcBlocks(v, w, i, q);
    PcLinks(v, w, i, q);
    InvFrom(w);
  }

  lemma BeginExitKeeps(v: State, w: State, i: Inst, code: int)
    requires Inv(v) && BeginExit(v, w, i, code)
    ensures Inv(w)
  {
    hide Inv, Link, CodeSet;
    var q := w.procs[i];
    InvAsserts(v);
    Facts(v, i);
    PcLocal(i, v.procs[i], q);
    forall x: Inst | Is(v, x) && x != i ensures Listed(w, x, v.procs[x]) {
      Facts(v, x);
    }
    hide Local;
    PcBlocks(v, w, i, q);
    PcLinks(v, w, i, q);
    InvFrom(w);
  }

  /** A process that has not exited finds the blocks of its children in their slots. */
  lemma ChildFound(v: State, c: Inst, i: Inst)
    requires Inv(v) && Child(v, c, i) && !Released(v.procs[i].pc)
    ensures Finds(v, c) && !v.procs[c].deleted
  {
    hide Inv, Local, Link, Refers;
    Facts(v, c);
    LinkFact(v, c, i);
    ChildThere(c, v.procs[c], i, v.procs[i]);
  }

  lemma BeginJoinKeeps(v: State, w: State, i: Inst, c: Inst)
    requires Inv(v) && BeginJoin(v, w, i, c)
    ensures Inv(w)
  {
    hide Inv, Local, Link, CodeSet;
    ChildFound(v, c, i);
    var q := w.procs[i];
    InvAsserts(v);
    Facts(v, i);
    PcLocal(i, v.procs[i], q);
    forall x: Inst | Is(v, x) && x != i ensures Listed(w, x, v.procs[x]) {
      Facts(v, x);
    }
    PcBlocks(v, w, i, q);
    PcLinks(v, w, i, q);
    InvFrom(w);
  }

  /** What Join returns is what the child passed to Exit. */
  lemma JoinReads(v: State, w: State, i: Inst)
    requires Inv(v) && EndJoin(v, w, i)
    ensures var c := v.procs[i].pc.asked;
            && Child(v, c, i) && v.procs[i].pc.found == c && Finds(v, c) && CodeSet(v.procs[c])
            && w == v.(procs := v.procs[i := v.procs[i].(pc := User)], joins := v.joins + [Join(i, c, v.procs[c].code)])
  {
    hide Inv, Local, Listed;
    Facts(v, i);
    var c := v.procs[i].pc.asked;
    ChildFound(v, c, i);
    LinkFact(v, c, i);
  }

  lemma EndJoinKeeps(v: State, w: State, i: Inst)
    requires Inv(v) && EndJoin(v, w, i)
    ensures Inv(w)
  {
    hide Inv, Local, Link, CodeSet;
    JoinReads(v, w, i);
    var q := w.procs[i];
    InvAsserts(v);
    Facts(v, i);
    PcLocal(i, v.procs[i], q);
    forall x: Inst | Is(v, x) && x != i ensures Listed(w, x, v.procs[x]) {
      Facts(v, x);
    }
    PcBlocks(v, w, i, q);
    PcLinks(v, w, i, q);
    InvFrom(w);
  }

  lemma DoRemoveKeeps(v: State, w: State, i: Inst)
    requires Inv(v) && DoRemove(v, w, i)
    ensures Inv(w)
  {
    hide Inv, Link, CodeSet;
    var q := w.procs[i];
    InvAsserts(v);
    Facts(v, i);
    PcLocal(i, v.procs[i], q);
    forall x: Inst | Is(v, x) && x != i ensures Listed(w, x, v.procs[x]) {
      Facts(v, x);
    }
    hide Local;
    PcBlocks(v, w, i, q);
    PcLinks(v, w, i, q);
    InvFrom(w);
  }

  // A new block.

  lemma NewChild(v: State, w: State, i: Inst, c: Inst, x: Inst)
    requires NewPcb(v, w, i)
    ensures Child(w, c, x) <==> Child(v, c, x) || (c == |v.procs| && x == i)
  {
  }

  lemma NewAsParent(c: Inst, ch: Proc, i: Inst, p: Proc, n: Inst)
    requires p.pc.Slot? && Link(c, ch, i, p) && c != n
    ensures Link(c, ch, i, p.(pc := IncP(n)))
  {
  }

  lemma NewAsChild(i: Inst, p: Proc, j: Inst, par: Proc, n: Inst)
    requires p.pc.Slot? && Link(i, p, j, par)
    ensures Link(i, p.(pc := IncP(n)), j, par)
  {
  }

  lemma NewLocal(i: Inst, p: Proc, n: Inst, slot: nat)
    requires p.pc.Slot? && Local(i, p) && n > 0
    ensures Local(i, p.(pc := IncP(n))) && Local(n, Blank(slot, i))
  {
  }

  lemma NewLink(v: State, i: Inst, p: Proc, slot: nat)
    requires p.pc.Slot? && Refers(v, i, p) && i < |v.procs|
    ensures Link(|v.procs|, Blank(slot, i), i, p.(pc := IncP(|v.procs|)))
  {
  }

  lemma NewRefers(v: State, w: State, i: Inst, x: Inst, p: Proc)
    requires NewPcb(v, w, i) && Refers(v, x, p)
    ensures Refers(w, x, p)
  {
    hide Child, NewPcb;
    forall c: Inst, y: Inst | Child(v, c, y) ensures Child(w, c, y) {
      NewChild(v, w, i, c, y);
    }
  }

  lemma NewLinks(v: State, w: State, i: Inst)
    requires Inv(v) && NewPcb(v, w, i)
    ensures Links(w)
  {
    hide Inv, Local, Refers, Link, Listed;
    var n, p := |v.procs|, v.procs[i];
    Facts(v, i);
    forall c: Inst, x: Inst | Child(w, c, x) ensures Link(c, w.procs[c], x, w.procs[x]) {
      NewChild(v, w, i, c, x);
      if c == n && x == i {
        NewLink(v, i, p, p.pc.slot);
      } else {
        LinkFact(v, c, x);
        if x == i {
          NewAsParent(c, v.procs[c], i, p, n);
        } else if c == i {
          NewAsChild(i, p, x, v.procs[x], n);
        }
      }
    }
  }

  lemma NewBlocks(v: State, w: State, i: Inst)
    requires Inv(v) && NewPcb(v, w, i)
    ensures Blocks(w)
  {
    hide Inv, Local, Link, Refers;
    var n, p := |v.procs|, v.procs[i];
    InvAsserts(v);
    Facts(v, i);
    NewLocal(i, p, n, p.pc.slot);
    NewOwnRefers(v, w, i);
    forall x: Inst | Is(w, x) && x != i && x != n
      ensures Local(x, w.procs[x]) && Refers(w, x, w.procs[x]) && Listed(w, x, w.procs[x])
    {
      assert Is(v, x);
      Facts(v, x);
      NewRefers(v, w, i, x, v.procs[x]);
    }
  }

  lemma NewOwnRefers(v: State, w: State, i: Inst)
    requires NewPcb(v, w, i) && Refers(v, i, v.procs[i])
    ensures Refers(w, i, w.procs[i]) && Refers(w, |v.procs|, w.procs[|v.procs|])
  {
    NewRefers(v, w, i, i, v.procs[i]);
  }

  lemma NewPcbKeeps(v: State, w: State, i: Inst)
    requires Inv(v) && NewPcb(v, w, i)
    ensures Inv(w)
  {
    hide Inv, Link, Refers, Blocks, Links, CodeSet;
    InvAsserts(v);
    Facts(v, i);
    NewBlocks(v, w, i);
    NewLinks(v, w, i);
    NotCodeSet(v.procs[i]);
    InvFrom(w);
  }

  lemma NotCodeSet(p: Proc)
    requires p.pc.Slot?
    ensures !CodeSet(p)
  {
  }

  lemma OwnKeeps(v: State, w: State, i: Inst)
    requires Inv(v) && Own(v, w, i)
    ensures Inv(w)
  {
    hide Inv, Own, Slots, JoinsRight, Blocks, Links;
    OwnBlocks(v, w, i);
    OwnLinks(v, w, i);
    OwnAsserts(v, w, i);
    InvFrom(w);
  }

  lemma DownKeeps(v: State, w: State, i: Inst)
    requires Inv(v) && Down(v, w, i)
    ensures Inv(w)
  {
    hide Inv, Down, Slots, JoinsRight, Blocks, Links;
    DownBlocks(v, w, i);
    DownLinks(v, w, i);
    InvFrom(w);
  }

  lemma UpKeeps(v: State, w: State, c: Inst)
    requires Inv(v) && Up(v, w, c)
    ensures Inv(w)
  {
    hide Inv, Slots, JoinsRight, Blocks, Links, UpStep;
    var i := v.procs[c].parent.value;
    if v.procs[i].deleted {
      SameProcs(v, w);
    } else {
      UpBlocks(v, w, c, i);
      UpLinks(v, w, c, i);
      InvFrom(w);
    }
  }

  lemma StepOfKeeps(v: State, w: State, i: Inst)
    requires Inv(v) && StepOf(v, w, i)
    ensures Inv(w)
  {
    hide Inv, BeginExec, BeginExit, BeginJoin, EndJoin, NewPcb, Own, DoRemove, Down, Up;
    if slot :| BeginExec(v, w, i, slot) {
      BeginExecKeeps(v, w, i, slot);
    } else if code :| BeginExit(v, w, i, code) {
      BeginExitKeeps(v, w, i, code);
    } else if c :| BeginJoin(v, w, i, c) {
      BeginJoinKeeps(v, w, i, c);
    } else if EndJoin(v, w, i) {
      EndJoinKeeps(v, w, i);
    } else if NewPcb(v, w, i) {
      NewPcbKeeps(v, w, i);
    } else if Own(v, w, i) {
      OwnKeeps(v, w, i);
    } else if DoHalt(v, w, i) {
      SameProcs(v, w);
    } else if DoRemove(v, w, i) {
      DoRemoveKeeps(v, w, i);
    } else if Down(v, w, i) {
      DownKeeps(v, w, i);
    } else {
      UpKeeps(v, w, i);
    }
  }

  ghost predicate IsTableRun(run: seq<State>)
  {
    Runs.IsRun(run, v => Init(v), (v, w) => Step(v, w))
  }

  lemma EveryStateOfEveryRun(run: seq<State>, n: nat)
    requires IsTableRun(run) && n < |run|
    ensures Inv(run[n])
  {
    hide Init, Inv, StepOf;
    forall v | Init(v) ensures Inv(v) {
      InitInv(v);
    }
    forall v, w | Inv(v) && Step(v, w) ensures Inv(w) {
      var i :| StepOf(v, w, i);
      StepOfKeeps(v, w, i);
    }
    Runs.InvariantHolds(run, v => Init(v), (v, w) => Step(v, w), v => Inv(v), n);
  }

  // ---- consequences, in every reachable state ----

  ghost predicate Reachable(v: State)
  {
    exists run :: IsTableRun(run) && run[|run| - 1] == v
  }

  lemma ReachableInv(v: State)
    requires Reachable(v)
    ensures Inv(v)
  {
    hide Inv;
    var run :| IsTableRun(run) && run[|run| - 1] == v;
    EveryStateOfEveryRun(run, |run| - 1);
  }

  /** A parent's Join on its child reads a block that is still in the table, and returns what the child passed to Exit. */
  lemma JoinReturnsExitCode(v: State, w: State, i: Inst)
    requires Reachable(v) && EndJoin(v, w, i)
    ensures var c := v.procs[i].pc.asked;
            && Child(v, c, i) && Finds(v, c) && !v.procs[c].deleted
            && w.joins == v.joins + [Join(i, c, v.procs[c].code)] && w.dangling == v.dangling
  {
    hide Inv;
    ReachableInv(v);
    JoinReads(v, w, i);
    Facts(v, v.procs[i].pc.asked);
  }

  /** Every lookup in the table finds the block that is meant, and a finished Join never disagrees with Exit. */
  lemma LookupsAndJoinsAreRight(v: State, k: nat)
    requires Reachable(v) && k < |v.joins|
    ensures v.asserts && v.joins[k].child < |v.procs|
    ensures CodeSet(v.procs[v.joins[k].child]) && v.joins[k].code == v.procs[v.joins[k].child].code
  {
    hide Blocks, Links, Slots, CodeSet, Reachable;
    ReachableInv(v);
  }

  /** A process reaches Remove only after its parent has released its exitsem, in the parent's own ExitUpdate. */
  lemma RemoveAfterParentReleased(v: State, c: Inst, i: Inst)
    requires Reachable(v) && Child(v, c, i) && Taken(v.procs[c].pc)
    ensures Released(v.procs[i].pc)
  {
    hide Inv;
    ReachableInv(v);
    LinkFact(v, c, i);
  }

  /** Children of `i` that have not decremented its count. */
  ghost function Waiting(v: State, i: Inst): set<Inst>
  {
    set c | 0 <= c < |v.procs| && Child(v, c, i) && !PastSub(v.procs[c].pc)
  }

  /** Outside multex sections of a process that has not passed Exit and is not just creating a child, numwait counts the
      children that have not decremented it, and shouldExit is 1 exactly when there are none. */
  lemma ShouldExitIffNoneWait(v: State, i: Inst)
    requires Reachable(v) && Is(v, i) && v.procs[i].holder.None? && !Taken(v.procs[i].pc) && !v.procs[i].pc.IncP?
    ensures v.procs[i].numwait == |Waiting(v, i)|
    ensures v.procs[i].shouldExit == if Waiting(v, i) == {} then 1 else 0
  {
    hide Inv;
    ReachableInv(v);
    Facts(v, i);
    forall c ensures c in v.procs[i].pending <==> c in Waiting(v, i) {
      if 0 <= c < |v.procs| && Child(v, c, i) {
        LinkFact(v, c, i);
      }
    }
    assert v.procs[i].pending == Waiting(v, i);
  }

  /** IncNumWait does not block on shouldExit while it holds multex. */
  lemma IncNeverBlocks(v: State, i: Inst)
    requires Reachable(v) && Is(v, i) && v.procs[i].pc.IncTake?
    ensures v.procs[i].shouldExit == 1
  {
    hide Inv;
    ReachableInv(v);
    Facts(v, i);
  }

  /** A block is removed only when every child has decremented its count and done its V on shouldExit; so the parent's
      block is there for the whole of DecNumWait up to that V. */
  lemma RemovedAfterChildren(v: State, c: Inst, i: Inst)
    requires Reachable(v) && Child(v, c, i) && Taken(v.procs[i].pc)
    ensures PastSub(v.procs[c].pc) && !v.procs[c].pc.DecTest?
  {
    hide Inv;
    ReachableInv(v);
    Facts(v, i);
    LinkFact(v, c, i);
    assert v.procs[i].pending == {};
  }

  /** The last statement of DecNumWait, the V on multex, may still be to come; it is not exactly if multex is free. */
  lemma ChildrenLeftDecIff(v: State, i: Inst)
    requires Reachable(v) && Is(v, i) && Taken(v.procs[i].pc)
    ensures (forall c: Inst :: Child(v, c, i) ==> !InDec(v.procs[c].pc)) <==> v.procs[i].multex == 1
  {
    hide Inv;
    ReachableInv(v);
    Facts(v, i);
    forall c: Inst | Child(v, c, i) ensures v.procs[i].holder == Some(c) <==> InDec(v.procs[c].pc) {
      LinkFact(v, c, i);
    }
    forall j: Inst | Child(v, i, j) ensures v.procs[i].holder != Some(j) {
      LinkFact(v, i, j);
    }
  }

  // ---- when a deleted block is used ----

  /** Process `c` is about to use the block of its parent `i`, which is deleted. */
  ghost predicate UsesDeleted(v: State, c: Inst, i: Inst)
  {
    Child(v, c, i) && v.procs[i].deleted && (v.procs[c].pc.DecV? || v.procs[c].pc.WaitP? || v.procs[c].pc.WaitV?)
  }

  lemma UpDangles(v: State, w: State, c: Inst, i: Inst)
    requires Inv(v) && !v.dangling && Up(v, w, c) && Child(v, c, i)
    ensures w.dangling <==> UsesDeleted(v, c, i)
  {
    hide Inv, UpStep, Local, Link;
    Facts(v, i);
    LinkFact(v, c, i);
    if v.procs[c].pc.DecP? || v.procs[c].pc.DecSub? || v.procs[c].pc.DecTest? {
      ParentThere(c, v.procs[c], i, v.procs[i]);
    }
  }

  lemma OthersDoNotDangle(v: State, w: State, i: Inst)
    requires Inv(v) && !v.dangling && StepOf(v, w, i) && !Up(v, w, i)
    ensures !w.dangling
  {
    hide Inv, Up, Down;
    if Down(v, w, i) {
      DownBlocks(v, w, i);
    } else if EndJoin(v, w, i) {
      JoinReads(v, w, i);
    }
  }

  /** The next step can use a deleted block exactly if some child is at the last V of DecNumWait, or in ExitWait, of a
      parent's block that is gone. */
  lemma CanDangleIff(v: State)
    requires Reachable(v) && !v.halted && !v.dangling
    ensures (exists w :: Step(v, w) && w.dangling) <==> (exists c: Inst, i: Inst :: UsesDeleted(v, c, i))
  {
    hide Inv, Reachable, StepOf;
    ReachableInv(v);
    if w :| Step(v, w) && w.dangling {
      var c :| StepOf(v, w, c);
      DanglesAt(v, w, c);
    }
    if c: Inst, i: Inst :| UsesDeleted(v, c, i) {
      var w := v.(dangling := true);
      assert UpPc(v.procs[c].pc);
      UpIsStep(v, w, c, i);
    }
  }

  lemma UpIsStep(v: State, w: State, c: Inst, i: Inst)
    requires UsesDeleted(v, c, i) && w == v.(dangling := true)
    ensures StepOf(v, w, c)
  {
    assert Up(v, w, c);
  }

  lemma DanglesAt(v: State, w: State, c: Inst)
    requires Inv(v) && !v.dangling && StepOf(v, w, c) && w.dangling
    ensures exists i :: UsesDeleted(v, c, i)
  {
    hide Inv, StepOf, UsesDeleted;
    if Up(v, w, c) {
      var i := v.procs[c].parent.value;
      assert Child(v, c, i);
      UpDangles(v, w, c, i);
    } else {
      OthersDoNotDangle(v, w, c);
    }
  }

  /** Only the main process has called Exec. */
  ghost predicate OnlyMainHasChildren(v: State)
  {
    forall c, i :: Child(v, c, i) ==> i == 0
  }

  /** As long as that is so, no deleted block is used. */
  lemma SafeWhileOnlyMainHasChildren(v: State, w: State)
    requires Reachable(v) && Step(v, w) && OnlyMainHasChildren(v)
    ensures !w.dangling
  {
    hide Inv, Reachable, StepOf;
    ReachableInv(v);
    SafeStep(v, w);
  }

  lemma SafeStep(v: State, w: State)
    requires Inv(v) && Step(v, w) && OnlyMainHasChildren(v)
    ensures !w.dangling
  {
    hide Inv, StepOf, Link, Refers, Listed;
    var c :| StepOf(v, w, c);
    if w.dangling {
      DanglesAt(v, w, c);
      var i :| UsesDeleted(v, c, i);
      Facts(v, 0);
    }
  }
}
