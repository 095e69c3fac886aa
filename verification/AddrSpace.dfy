/** Address spaces (userprog/addrspace.cc): page tables whose frames are handed out by a bit map, and what a user
    program's loads and stores do to the memory of all spaces. */
module AddrSpaces {
  import opened Machines
  import Bitmaps
  import opened Sequences

  /** A page table as the constructor fills it: every page valid and writable, in a frame of its own. */
  ghost predicate Mapped(t: seq<TranslationEntry>)
  {
    && (forall i :: 0 <= i < |t| ==> t[i].valid && !t[i].readOnly && 0 <= t[i].physicalPage < NUM_PHYS_PAGES)
    && (forall i, j :: 0 <= i < j < |t| ==> t[i].physicalPage != t[j].physicalPage)
  }

  ghost function Frames(t: seq<TranslationEntry>): set<int>
  {
    set i | 0 <= i < |t| :: t[i].physicalPage
  }

  lemma SameMappingSameFrames(t: seq<TranslationEntry>, u: seq<TranslationEntry>)
    requires SameMapping(t, u)
    ensures Frames(t) == Frames(u) && (Mapped(t) ==> Mapped(u))
  {
    forall f | f in Frames(t) ensures f in Frames(u) {
      var i :| 0 <= i < |t| && t[i].physicalPage == f;
      assert u[i].physicalPage == f;
    }
    forall f | f in Frames(u) ensures f in Frames(t) {
      var i :| 0 <= i < |u| && u[i].physicalPage == f;
      assert t[i].physicalPage == f;
    }
  }

  /** Where a byte of a space is: in one of the space's frames, inside main memory. */
  lemma PhysInFrames(t: seq<TranslationEntry>, va: int)
    requires Mapped(t) && 0 <= va < |t| * PAGE_SIZE
    ensures 0 <= Page(va) < |t| && 0 <= Phys(t, va) < MEMORY_SIZE
    ensures Page(Phys(t, va)) == t[Page(va)].physicalPage && Page(Phys(t, va)) in Frames(t)
    ensures Offset(Phys(t, va)) == Offset(va)
  {
    hide Page, Offset;
    AddressParts(va);
    PartsOf(t[Page(va)].physicalPage, Offset(va));
  }

  lemma PartsOf(page: int, offset: int)
    requires 0 <= page && 0 <= offset < PAGE_SIZE
    ensures Page(page * PAGE_SIZE + offset) == page && Offset(page * PAGE_SIZE + offset) == offset
  {
  }

  /** Two bytes of one space are at different places. */
  lemma PhysInjective(t: seq<TranslationEntry>, va: int, vb: int)
    requires Mapped(t) && 0 <= va < |t| * PAGE_SIZE && 0 <= vb < |t| * PAGE_SIZE && va != vb
    ensures 0 <= Page(va) < |t| && 0 <= Page(vb) < |t| && Phys(t, va) != Phys(t, vb)
  {
    hide Page, Offset;
    AddressParts(va);
    AddressParts(vb);
    PhysInFrames(t, va);
    PhysInFrames(t, vb);
  }

  /** The flat memory a program sees through its page table. */
  ghost function Memory(mem: seq<bv8>, t: seq<TranslationEntry>): (m: seq<bv8>)
    requires |mem| == MEMORY_SIZE && Mapped(t)
    ensures |m| == |t| * PAGE_SIZE
  {
    seq(|t| * PAGE_SIZE, va requires 0 <= va < |t| * PAGE_SIZE => PhysInFrames(t, va); mem[Phys(t, va)])
  }

  lemma MemoryAt(mem: seq<bv8>, t: seq<TranslationEntry>, va: int)
    requires |mem| == MEMORY_SIZE && Mapped(t) && 0 <= va < |t| * PAGE_SIZE
    ensures 0 <= Page(va) < |t| && 0 <= Phys(t, va) < MEMORY_SIZE && Memory(mem, t)[va] == mem[Phys(t, va)]
  {
    hide Page, Offset, Phys, Mapped;
    PhysInFrames(t, va);
  }

  lemma SameMappingSameMemory(mem: seq<bv8>, t: seq<TranslationEntry>, u: seq<TranslationEntry>)
    requires |mem| == MEMORY_SIZE && Mapped(t) && SameMapping(t, u)
    ensures Mapped(u) && Memory(mem, t) == Memory(mem, u)
  {
    hide Page, Offset, Memory, Phys;
    SameMappingSameFrames(t, u);
    forall va | 0 <= va < |t| * PAGE_SIZE ensures Memory(mem, t)[va] == Memory(mem, u)[va] {
      MemoryAt(mem, t, va);
      MemoryAt(mem, u, va);
      SameMappingSamePhys(t, u, va, 1, false);
    }
  }

  /** Changing memory outside a space's frames does not show in the space. */
  lemma OutsideUnseen(mem: seq<bv8>, mem': seq<bv8>, t: seq<TranslationEntry>)
    requires |mem| == |mem'| == MEMORY_SIZE && Mapped(t)
    requires forall p :: 0 <= p < MEMORY_SIZE && Page(p) in Frames(t) ==> mem[p] == mem'[p]
    ensures Memory(mem, t) == Memory(mem', t)
  {
    hide Page, Offset, Memory, Phys, Mapped, Frames;
    forall va | 0 <= va < |t| * PAGE_SIZE ensures Memory(mem, t)[va] == Memory(mem', t)[va] {
      MemoryAt(mem, t, va);
      MemoryAt(mem', t, va);
      PhysInFrames(t, va);
    }
  }

  lemma WriteUnseen(spaces: map<PageTable, set<int>>, free: set<int>, space: PageTable, u: PageTable,
                    mem: seq<bv8>, t: seq<TranslationEntry>, va: int, b: seq<bv8>)
    requires Divided(spaces, free) && space in spaces && u in spaces && u != space
    requires Mapped(u.entries) && spaces[u] == Frames(u.entries) && Mapped(t) && spaces[space] == Frames(t)
    requires |mem| == MEMORY_SIZE && 0 <= va && va + |b| <= |t| * PAGE_SIZE && |b| > 0
    requires 0 <= Page(va) < |t| && 0 <= Phys(t, va) && Phys(t, va) + |b| <= MEMORY_SIZE
    requires forall k :: va <= k < va + |b| ==> 0 <= Page(k) < |t| && Phys(t, k) == Phys(t, va) + k - va
    ensures Unchanged(mem, Splice(mem, Phys(t, va), b), u)
  {
    hide Page, Offset, Memory, Phys, Mapped, Frames, Splice;
    var mem' := Splice(mem, Phys(t, va), b);
    forall p | 0 <= p < MEMORY_SIZE && Page(p) in Frames(u.entries) ensures mem[p] == mem'[p] {
      if Phys(t, va) <= p < Phys(t, va) + |b| {
        var k := va + p - Phys(t, va);
        assert va <= k < va + |b|;
        PhysInFrames(t, k);
        assert false;
      }
    }
    OutsideUnseen(mem, mem', u.entries);
  }

  /** A write through the page table is a write at the same place of the flat memory. */
  lemma WriteSeen(mem: seq<bv8>, t: seq<TranslationEntry>, va: int, b: seq<bv8>)
    requires |mem| == MEMORY_SIZE && Mapped(t) && 0 <= va && va + |b| <= |t| * PAGE_SIZE && |b| > 0
    requires 0 <= Page(va) < |t| && 0 <= Phys(t, va) && Phys(t, va) + |b| <= MEMORY_SIZE
    requires forall k :: va <= k < va + |b| ==> 0 <= Page(k) < |t| && Phys(t, k) == Phys(t, va) + k - va
    ensures Memory(Splice(mem, Phys(t, va), b), t) == Splice(Memory(mem, t), va, b)
  {
    hide Page, Offset, Memory, Phys, Mapped, Splice;
    var mem' := Splice(mem, Phys(t, va), b);
    forall k | 0 <= k < |t| * PAGE_SIZE ensures Memory(mem', t)[k] == Splice(Memory(mem, t), va, b)[k] {
      MemoryAt(mem, t, k);
      MemoryAt(mem', t, k);
      var p := Phys(t, k);
      if va <= k < va + |b| {
        assert mem'[p] == b[k - va];
      } else if Phys(t, va) <= p < Phys(t, va) + |b| {
        var k' := va + p - Phys(t, va);
        assert va <= k' < va + |b|;
        PhysInjective(t, k, k');
        assert false;
      }
    }
  }

  // ---- the spaces of the running processes ----

  /** Live spaces hold disjoint frames, and the free ones are exactly those that no live space holds. */
  ghost predicate Divided(spaces: map<PageTable, set<int>>, free: set<int>)
  {
    && (forall s, u :: s in spaces && u in spaces && s != u ==> spaces[s] !! spaces[u])
    && (forall f :: f in free <==> 0 <= f < NUM_PHYS_PAGES && forall s :: s in spaces ==> f !in spaces[s])
  }

  lemma DividedAdd(spaces: map<PageTable, set<int>>, free: set<int>, space: PageTable, frames: set<int>)
    requires Divided(spaces, free) && space !in spaces && frames <= free
    ensures Divided(spaces[space := frames], free - frames)
  {
    var more := spaces[space := frames];
    forall f ensures f in free - frames <==> 0 <= f < NUM_PHYS_PAGES && forall s :: s in more ==> f !in more[s] {
      if f in frames {
        assert f in more[space];
      } else if f !in free && 0 <= f < NUM_PHYS_PAGES {
        var s: PageTable :| s in spaces && f in spaces[s];
        assert f in more[s];
      }
    }
  }

  lemma DividedRemove(spaces: map<PageTable, set<int>>, free: set<int>, space: PageTable)
    requires Divided(spaces, free) && space in spaces && (forall f :: f in spaces[space] ==> 0 <= f < NUM_PHYS_PAGES)
    ensures Divided(spaces - {space}, free + spaces[space])
  {
    var rest := spaces - {space};
    forall f ensures f in free + spaces[space] <==> 0 <= f < NUM_PHYS_PAGES && forall s :: s in rest ==> f !in rest[s] {
      if f in spaces[space] {
      } else if f !in free && 0 <= f < NUM_PHYS_PAGES {
        var s: PageTable :| s in spaces && f in spaces[s];
        assert s in rest && f in rest[s];
      }
    }
  }

  function FreshEntry(frame: int): TranslationEntry
  {
    TranslationEntry(frame, true, false, false, false)
  }

  lemma AddFrame(t: seq<TranslationEntry>, frame: int)
    requires Mapped(t) && 0 <= frame < NUM_PHYS_PAGES && frame !in Frames(t)
    ensures Mapped(t + [FreshEntry(frame)]) && Frames(t + [FreshEntry(frame)]) == Frames(t) + {frame}
  {
    var u := t + [FreshEntry(frame)];
    forall i | 0 <= i < |t| ensures t[i].physicalPage in Frames(t) && u[i] == t[i] {
    }
    forall f | f in Frames(u) ensures f in Frames(t) + {frame} {
      var i :| 0 <= i < |u| && u[i].physicalPage == f;
    }
    forall f | f in Frames(t) + {frame} ensures f in Frames(u) {
      if f == frame {
        assert u[|t|].physicalPage == f;
      } else {
        var i :| 0 <= i < |t| && t[i].physicalPage == f;
        assert u[i].physicalPage == f;
      }
    }
  }

  lemma FramesOfPrefix(t: seq<TranslationEntry>, i: nat)
    requires i < |t|
    ensures Frames(t[..i + 1]) == Frames(t[..i]) + {t[i].physicalPage}
  {
    forall f | f in Frames(t[..i + 1]) ensures f in Frames(t[..i]) + {t[i].physicalPage} {
      var k :| 0 <= k < i + 1 && t[..i + 1][k].physicalPage == f;
      if k < i {
        assert t[..i][k].physicalPage == f;
      }
    }
    forall f | f in Frames(t[..i]) + {t[i].physicalPage} ensures f in Frames(t[..i + 1]) {
      if f == t[i].physicalPage {
        assert t[..i + 1][i].physicalPage == f;
      } else {
        var k :| 0 <= k < i && t[..i][k].physicalPage == f;
        assert t[..i + 1][k].physicalPage == f;
      }
    }
  }

  /** For a space of the constructor's making, the only errors are misalignment and an address past the end. */
  lemma CheckIsBound(t: seq<TranslationEntry>, va: int, size: int, writing: bool)
    requires Mapped(t) && 0 <= va
    ensures Check(t, va, size, writing).NoException? <==> !Misaligned(va, size) && va < |t| * PAGE_SIZE
  {
    hide Page, Offset, Misaligned;
    AddressParts(va);
  }

  lemma AccessIsSlice(mem: seq<bv8>, t: seq<TranslationEntry>, va: int, size: int)
    requires |mem| == MEMORY_SIZE && Mapped(t) && 0 <= va < ADDRESS_LIMIT && size in {1, 2, 4}
    requires !Misaligned(va, size) && va < |t| * PAGE_SIZE
    ensures va + size <= |t| * PAGE_SIZE && 0 <= Page(va) < |t|
    ensures 0 <= Phys(t, va) && Phys(t, va) + size <= MEMORY_SIZE
    ensures forall k :: va <= k < va + size ==> 0 <= Page(k) < |t| && Phys(t, k) == Phys(t, va) + k - va
    ensures Memory(mem, t)[va..va + size] == mem[Phys(t, va)..Phys(t, va) + size]
  {
    hide Page, Offset, Memory, Phys, Mapped, Misaligned, Check;
    CheckIsBound(t, va, size, false);
    AccessStaysInFrame(t, va, size, false, 0);
    SizeFits(t, va, size);
    forall k | va <= k < va + size
      ensures 0 <= Page(k) < |t| && Phys(t, k) == Phys(t, va) + k - va && Memory(mem, t)[k] == mem[Phys(t, va) + k - va]
    {
      AccessStaysInFrame(t, va, size, false, k - va);
      MemoryAt(mem, t, k);
    }
  }

  lemma SizeFits(t: seq<TranslationEntry>, va: int, size: int)
    requires 0 <= va < |t| * PAGE_SIZE && size in {1, 2, 4} && !Misaligned(va, size)
    ensures va + size <= |t| * PAGE_SIZE && 0 <= Page(va) < |t|
  {
    hide Page, Offset;
    AddressParts(va);
    AlignedInPage(va, size);
  }

  lemma SameMappingSymmetric(t: seq<TranslationEntry>, u: seq<TranslationEntry>)
    requires SameMapping(t, u)
    ensures SameMapping(u, t)
  {
  }

  class MemoryManager {
    const machine: Machine
    const frameMap: Bitmaps.Bitmap
    ghost var spaces: map<PageTable, set<int>>     // the page tables of the live spaces, and their frames

    ghost predicate Valid()
      reads this, machine, frameMap, frameMap.words, spaces.Keys
    {
      && machine.Valid() && frameMap.Valid() && frameMap.numBits == NUM_PHYS_PAGES
      && (forall s :: s in spaces ==> Mapped(s.entries) && Frames(s.entries) == spaces[s])
      && Divided(spaces, frameMap.free)
    }

    constructor (machine: Machine)
      requires machine.Valid()
      ensures Valid() && this.machine == machine && spaces == map[] && fresh(frameMap) && fresh(frameMap.words)
    {
      this.machine := machine;
      frameMap := new Bitmaps.Bitmap(NUM_PHYS_PAGES);
      spaces := map[];
    }

    /** Takes the lowest free frame for every page; stops at the assertion when the frames run out. */
    method TakeFrames(numPages: nat) returns (aborted: bool, table: seq<TranslationEntry>)
      requires frameMap.Valid() && frameMap.numBits == NUM_PHYS_PAGES
      modifies frameMap, frameMap.words
      ensures frameMap.Valid()
      ensures aborted <==> numPages > |old(frameMap.free)|
      ensures !aborted ==> |table| == numPages && Mapped(table) && Frames(table) <= old(frameMap.free)
      ensures !aborted ==> frameMap.free == old(frameMap.free) - Frames(table)
    {
      hide Mapped, Frames;
      aborted, table := false, [];
      EmptyTable();
      for i := 0 to numPages
        invariant frameMap.Valid() && |table| == i && Mapped(table)
        invariant Frames(table) <= old(frameMap.free) && frameMap.free == old(frameMap.free) - Frames(table)
        invariant |frameMap.free| == |old(frameMap.free)| - i
      {
        var frame := frameMap.FindAndSet();
        if frame == -1 {
          return true, table;
        }
        AddFrame(table, frame);
        table := table + [FreshEntry(frame)];
      }
    }

    method ZeroFrames(table: seq<TranslationEntry>)
      requires machine.Valid() && Mapped(table)
      modifies machine`mainMemory
      ensures machine.Valid()
      ensures forall va :: 0 <= va < |table| * PAGE_SIZE ==> Memory(machine.mainMemory, table)[va] == 0
      ensures forall p :: 0 <= p < MEMORY_SIZE && Page(p) !in Frames(table) ==> machine.mainMemory[p] == old(machine.mainMemory)[p]
    {
      hide Page, Offset;
      for i := 0 to |table|
        invariant machine.Valid()
        invariant forall p :: 0 <= p < MEMORY_SIZE && Page(p) !in Frames(table) ==> machine.mainMemory[p] == old(machine.mainMemory)[p]
        invariant forall k, p :: 0 <= k < i && 0 <= p < MEMORY_SIZE && Page(p) == table[k].physicalPage ==> machine.mainMemory[p] == 0
      {
        assert table[i].physicalPage in Frames(table);
        var before := machine.mainMemory;
        machine.mainMemory := Splice(before, table[i].physicalPage * PAGE_SIZE, seq(PAGE_SIZE, _ => 0));
        forall p | 0 <= p < MEMORY_SIZE
          ensures machine.mainMemory[p] == if Page(p) == table[i].physicalPage then 0 else before[p]
        {
          AddressParts(p);
        }
      }
      forall va | 0 <= va < |table| * PAGE_SIZE ensures Memory(machine.mainMemory, table)[va] == 0 {
        MemoryAt(machine.mainMemory, table, va);
        PhysInFrames(table, va);
      }
    }

    /** A new space: succeeds exactly if there are frames for its pages, shows only zeros, and leaves the other
        spaces as they were. */
    method Create(size: nat) returns (aborted: bool, space: PageTable)
      requires Valid()
      modifies this`spaces, machine`mainMemory, frameMap, frameMap.words
      ensures aborted <==> Bitmaps.DivRoundUp(size, PAGE_SIZE) > |old(frameMap.free)|
      ensures fresh(space)
      ensures !aborted ==>
                && Valid() && spaces == old(spaces)[space := Frames(space.entries)]
                && |space.entries| == Bitmaps.DivRoundUp(size, PAGE_SIZE)
                && (forall va :: 0 <= va < |space.entries| * PAGE_SIZE ==> Memory(machine.mainMemory, space.entries)[va] == 0)
                && (forall u :: u in old(spaces) ==> Unchanged(old(machine.mainMemory), machine.mainMemory, u))
    {
      hide Mapped, Frames, Page, Memory, Bitmaps.DivRoundUp, Divided;
      var table;
      aborted, table := TakeFrames(Bitmaps.DivRoundUp(size, PAGE_SIZE));
      space := new PageTable(table);
      if aborted {
        return;
      }
      ZeroFrames(table);
      DividedAdd(spaces, old(frameMap.free), space, Frames(table));
      spaces := spaces[space := Frames(table)];
      forall u | u in old(spaces)
        ensures Unchanged(old(machine.mainMemory), machine.mainMemory, u)
      {
        FramesNotFree(old(spaces), old(frameMap.free), u, Frames(table));
        OutsideUnseen(old(machine.mainMemory), machine.mainMemory, u.entries);
      }
    }

    /** Gives back exactly the frames of the space. */
    method Destroy(space: PageTable)
      requires Valid() && space in spaces
      modifies this`spaces, frameMap, frameMap.words
      ensures Valid() && spaces == old(spaces) - {space}
      ensures frameMap.free == old(frameMap.free) + old(spaces[space])
    {
      hide Page, Memory, Divided, Frames;
      EmptyTable();
      assert space.entries[..0] == [];
      for i := 0 to |space.entries|
        invariant frameMap.Valid()
        invariant frameMap.free == old(frameMap.free) + Frames(space.entries[..i]) && spaces == old(spaces)
      {
        frameMap.Clear(space.entries[i].physicalPage);
        FramesOfPrefix(space.entries, i);
      }
      assert space.entries[..|space.entries|] == space.entries;
      FramesInRange(space.entries);
      DividedRemove(spaces, old(frameMap.free), space);
      spaces := spaces - {space};
    }

    /** Makes a space the one that user addresses refer to. */
    method RestoreState(space: PageTable)
      requires Valid() && space in spaces
      modifies machine`pageTable
      ensures Valid() && machine.pageTable == space
    {
      machine.pageTable := space;
    }

    /** A user load reads the flat memory of the running space, and fails exactly if it is misaligned or past its end. */
    method UserLoad(addr: int, size: int) returns (ok: bool, value: bv32)
      requires Valid() && machine.pageTable in spaces && 0 <= addr < ADDRESS_LIMIT && size in {1, 2, 4}
      modifies machine, machine.pageTable
      ensures Valid() && machine.pageTable == old(machine.pageTable) && machine.mainMemory == old(machine.mainMemory)
      ensures ok <==> !Misaligned(addr, size) && addr < |old(machine.pageTable.entries)| * PAGE_SIZE
      ensures ok ==> addr + size <= |old(machine.pageTable.entries)| * PAGE_SIZE
      ensures ok ==> Bytes(value)[..size] == Memory(machine.mainMemory, old(machine.pageTable.entries))[addr..addr + size]
      ensures spaces == old(spaces)
    {
      hide Page, Offset, Memory, Mapped, Frames, Check, Misaligned, Bytes, Phys, SameMapping, Divided;
      ghost var space, t, mem := machine.pageTable, machine.pageTable.entries, machine.mainMemory;
      ok, value := machine.ReadMem(addr, size);
      assert machine.pageTable == space;
      SameMappingSymmetric(space.entries, t);
      SameMappingSameFrames(t, space.entries);
      SameMappingSameMemory(mem, t, space.entries);
      CheckIsBound(t, addr, size, false);
      if ok {
        SameMappingSamePhys(t, space.entries, addr, size, false);
        AccessIsSlice(mem, t, addr, size);
      }
    }

    /** A user store is a store into the flat memory of the running space; no other space sees a change. */
    method UserStore(addr: int, size: int, value: bv32) returns (ok: bool)
      requires Valid() && machine.pageTable in spaces && 0 <= addr < ADDRESS_LIMIT && size in {1, 2, 4}
      modifies machine, machine.pageTable
      ensures Valid() && machine.pageTable == old(machine.pageTable) && spaces == old(spaces)
      ensures ok <==> !Misaligned(addr, size) && addr < |old(machine.pageTable.entries)| * PAGE_SIZE
      ensures ok ==> addr + size <= |old(machine.pageTable.entries)| * PAGE_SIZE
      ensures Memory(machine.mainMemory, machine.pageTable.entries)
           == if ok then Splice(old(Memory(machine.mainMemory, machine.pageTable.entries)), addr, Bytes(value)[..size])
              else old(Memory(machine.mainMemory, machine.pageTable.entries))
      ensures forall u :: u in spaces && u != machine.pageTable ==> Unchanged(old(machine.mainMemory), machine.mainMemory, u)
    {
      hide Page, Offset, Memory, Mapped, Frames, Check, Misaligned, Bytes, Phys, SameMapping, Divided, Splice;
      ghost var space, t, mem := machine.pageTable, machine.pageTable.entries, machine.mainMemory;
      ok := machine.WriteMem(addr, size, value);
      assert machine.pageTable == space;
      SameMappingSymmetric(space.entries, t);
      SameMappingSameFrames(t, space.entries);
      SameMappingSameMemory(mem, t, space.entries);
      CheckIsBound(t, addr, size, true);
      if ok {
        SameMappingSamePhys(t, space.entries, addr, size, true);
        AccessIsSlice(mem, t, addr, size);
        WriteSeen(mem, t, addr, Bytes(value)[..size]);
        SameMappingSameMemory(machine.mainMemory, t, space.entries);
        forall u | u in spaces && u != space ensures Unchanged(mem, machine.mainMemory, u) {
          WriteUnseen(spaces, frameMap.free, space, u, mem, t, addr, Bytes(value)[..size]);
        }
      }
    }

    /** The kernel's own translation of a user address agrees with the machine's. */
    method Translate(space: PageTable, vaddr: int, writing: bool) returns (exception: ExceptionType, paddr: int)
      requires Valid() && space in spaces && 0 <= vaddr < ADDRESS_LIMIT
      modifies space
      ensures Valid() && SameMapping(space.entries, old(space.entries))
      ensures exception == Check(old(space.entries), vaddr, 1, writing)
      ensures exception.NoException? ==> paddr == Phys(space.entries, vaddr) && 0 <= paddr < MEMORY_SIZE
      ensures space.entries == if exception.NoException? then Touched(old(space.entries), Page(vaddr), writing)
                               else old(space.entries)
    {
      hide Page, Offset, Memory, Frames, Divided;
      ghost var t := space.entries;
      var vpn, offset := Page(vaddr), Offset(vaddr);
      AddressParts(vaddr);
      if vpn >= |space.entries| {
        return AddressErrorException, 0;
      }
      var pte := space.entries[vpn];
      if writing && pte.readOnly {
        return ReadOnlyException, 0;
      }
      var pfn := pte.physicalPage;
      if pfn >= NUM_PHYS_PAGES {
        return BusErrorException, 0;
      }
      pte := pte.(use := true);
      if writing {
        pte := pte.(dirty := true);
      }
      space.entries := space.entries[vpn := pte];
      assert SameMapping(t, space.entries);
      SameMappingSameFrames(t, space.entries);
      return NoException, pfn * PAGE_SIZE + offset;
    }
  }

  /** The program in space `u` sees the same memory. */
  ghost predicate Unchanged(before: seq<bv8>, after: seq<bv8>, u: PageTable)
    requires |before| == |after| == MEMORY_SIZE
    reads u
  {
    Mapped(u.entries) && Memory(after, u.entries) == Memory(before, u.entries)
  }

  lemma FramesNotFree(spaces: map<PageTable, set<int>>, free: set<int>, u: PageTable, frames: set<int>)
    requires Divided(spaces, free) && u in spaces && frames <= free
    ensures spaces[u] !! frames
  {
    forall f | f in frames ensures f !in spaces[u] {
      assert f in free;
    }
  }

  lemma FramesInRange(t: seq<TranslationEntry>)
    requires Mapped(t)
    ensures forall f :: f in Frames(t) ==> 0 <= f < NUM_PHYS_PAGES
  {
  }

  lemma EmptyTable()
    ensures Mapped([]) && Frames([]) == {}
  {
  }
}
