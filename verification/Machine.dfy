/** Address translation and memory access of the simulated machine (machine/translate.cc), and the
    MIPS instruction pairs for unaligned words (machine/mipssim.cc, with SIM_FIX). */
module Machines {
  import opened Sequences

  const PAGE_SIZE := 128
  const NUM_PHYS_PAGES := 128
  const MEMORY_SIZE := NUM_PHYS_PAGES * PAGE_SIZE
  const ADDRESS_LIMIT := 0x1_0000_0000

  datatype ExceptionType = NoException | PageFaultException | ReadOnlyException | BusErrorException | AddressErrorException

  datatype TranslationEntry = TranslationEntry(physicalPage: int, valid: bool, readOnly: bool, use: bool, dirty: bool)

  // ---- words and bytes, little-endian ----

  function Byte0(w: bv32): bv8 { (w & 0xff) as bv8 }
  function Byte1(w: bv32): bv8 { ((w >> 8) & 0xff) as bv8 }
  function Byte2(w: bv32): bv8 { ((w >> 16) & 0xff) as bv8 }
  function Byte3(w: bv32): bv8 { ((w >> 24) & 0xff) as bv8 }

  function Bytes(w: bv32): (b: seq<bv8>)
    ensures |b| == 4
  {
    [Byte0(w), Byte1(w), Byte2(w), Byte3(w)]
  }

  function Join(b0: bv8, b1: bv8, b2: bv8, b3: bv8): bv32
  {
    (b0 as bv32) | ((b1 as bv32) << 8) | ((b2 as bv32) << 16) | ((b3 as bv32) << 24)
  }

  lemma BytesOfJoin(b0: bv8, b1: bv8, b2: bv8, b3: bv8)
    ensures Bytes(Join(b0, b1, b2, b3)) == [b0, b1, b2, b3]
  {
  }

  // ---- masks and shifts: `o` keeps its low or high bytes, the others come from `v` ----

  function KeepLowOne(o: bv32, v: bv32): bv32 { (o & 0xff) | (v << 8) }
  function KeepLowTwo(o: bv32, v: bv32): bv32 { (o & 0xffff) | (v << 16) }
  function KeepLowThree(o: bv32, v: bv32): bv32 { (o & 0xffffff) | (v << 24) }
  function KeepHighOne(o: bv32, v: bv32): bv32 { (o & 0xff000000) | ((v >> 8) & 0xffffff) }
  function KeepHighTwo(o: bv32, v: bv32): bv32 { (o & 0xffff0000) | ((v >> 16) & 0xffff) }
  function KeepHighThree(o: bv32, v: bv32): bv32 { (o & 0xffffff00) | ((v >> 24) & 0xff) }

  // ---- what the unaligned instructions do to a word; `byte` is the address modulo 4 ----

  /** LWL */
  function MergeLeft(reg: bv32, value: bv32, byte: nat): bv32
    requires byte < 4
  {
    if byte == 3 then value
    else if byte == 2 then KeepLowOne(reg, value)
    else if byte == 1 then KeepLowTwo(reg, value)
    else KeepLowThree(reg, value)
  }

  /** LWR */
  function MergeRight(reg: bv32, value: bv32, byte: nat): bv32
    requires byte < 4
  {
    if byte == 3 then KeepHighThree(reg, value)
    else if byte == 2 then KeepHighTwo(reg, value)
    else if byte == 1 then KeepHighOne(reg, value)
    else value
  }

  /** SWL */
  function StoreLeft(value: bv32, reg: bv32, byte: nat): bv32
    requires byte < 4
  {
    if byte == 3 then reg
    else if byte == 2 then KeepHighOne(value, reg)
    else if byte == 1 then KeepHighTwo(value, reg)
    else KeepHighThree(value, reg)
  }

  /** SWR */
  function StoreRight(value: bv32, reg: bv32, byte: nat): bv32
    requires byte < 4
  {
    if byte == 3 then KeepLowThree(value, reg)
    else if byte == 2 then KeepLowTwo(value, reg)
    else if byte == 1 then KeepLowOne(value, reg)
    else reg
  }

  // Bytes of the masked and shifted words, one bit-vector identity at a time.

  lemma KeepLowOneBytes(o: bv32, v: bv32)
    ensures Bytes(KeepLowOne(o, v)) == [Bytes(o)[0], Bytes(v)[0], Bytes(v)[1], Bytes(v)[2]]
  {
  }

  lemma KeepLowTwoBytes(o: bv32, v: bv32)
    ensures Bytes(KeepLowTwo(o, v)) == [Bytes(o)[0], Bytes(o)[1], Bytes(v)[0], Bytes(v)[1]]
  {
  }

  lemma KeepLowThreeBytes(o: bv32, v: bv32)
    ensures Bytes(KeepLowThree(o, v)) == [Bytes(o)[0], Bytes(o)[1], Bytes(o)[2], Bytes(v)[0]]
  {
  }

  lemma KeepHighThreeBytes(o: bv32, v: bv32)
    ensures Bytes(KeepHighThree(o, v)) == [Bytes(v)[3], Bytes(o)[1], Bytes(o)[2], Bytes(o)[3]]
  {
  }

  lemma KeepHighTwoBytes(o: bv32, v: bv32)
    ensures Bytes(KeepHighTwo(o, v)) == [Bytes(v)[2], Bytes(v)[3], Bytes(o)[2], Bytes(o)[3]]
  {
  }

  lemma KeepHighOneBytes(o: bv32, v: bv32)
    ensures Bytes(KeepHighOne(o, v)) == [Bytes(v)[1], Bytes(v)[2], Bytes(v)[3], Bytes(o)[3]]
  {
  }

  /** `reg` with its last byte + 1 bytes replaced by the first ones of `word`. */
  ghost function LeftBytes(reg: seq<bv8>, word: seq<bv8>, byte: nat): (b: seq<bv8>)
    requires |reg| == |word| == 4 && byte < 4
    ensures |b| == 4
  {
    if byte == 3 then word
    else if byte == 2 then [reg[0], word[0], word[1], word[2]]
    else if byte == 1 then [reg[0], reg[1], word[0], word[1]]
    else [reg[0], reg[1], reg[2], word[0]]
  }

  /** `reg` with its first 4 - byte bytes replaced by the last ones of `word`. */
  ghost function RightBytes(reg: seq<bv8>, word: seq<bv8>, byte: nat): (b: seq<bv8>)
    requires |reg| == |word| == 4 && byte < 4
    ensures |b| == 4
  {
    if byte == 3 then [word[3], reg[1], reg[2], reg[3]]
    else if byte == 2 then [word[2], word[3], reg[2], reg[3]]
    else if byte == 1 then [word[1], word[2], word[3], reg[3]]
    else word
  }

  /** LWL fills the register from the top with the memory word's bytes up to the addressed one. */
  lemma MergeLeftBytes(reg: bv32, value: bv32, byte: nat)
    requires byte < 4
    ensures Bytes(MergeLeft(reg, value, byte)) == LeftBytes(Bytes(reg), Bytes(value), byte)
  {
    hide Byte0, Byte1, Byte2, Byte3, KeepLowOne, KeepLowTwo, KeepLowThree, KeepHighOne, KeepHighTwo, KeepHighThree, Bytes;
    KeepLowOneBytes(reg, value);
    KeepLowTwoBytes(reg, value);
    KeepLowThreeBytes(reg, value);
  }

  /** LWR fills it from the bottom with the bytes from the addressed one on. */
  lemma MergeRightBytes(reg: bv32, value: bv32, byte: nat)
    requires byte < 4
    ensures Bytes(MergeRight(reg, value, byte)) == RightBytes(Bytes(reg), Bytes(value), byte)
  {
    hide Byte0, Byte1, Byte2, Byte3, KeepLowOne, KeepLowTwo, KeepLowThree, KeepHighOne, KeepHighTwo, KeepHighThree, Bytes;
    KeepHighOneBytes(reg, value);
    KeepHighTwoBytes(reg, value);
    KeepHighThreeBytes(reg, value);
  }

  lemma StoreLeftBytes(value: bv32, reg: bv32, byte: nat)
    requires byte < 4
    ensures Bytes(StoreLeft(value, reg, byte)) == RightBytes(Bytes(value), Bytes(reg), 3 - byte)
  {
    hide Byte0, Byte1, Byte2, Byte3, KeepLowOne, KeepLowTwo, KeepLowThree, KeepHighOne, KeepHighTwo, KeepHighThree, Bytes;
    KeepHighOneBytes(value, reg);
    KeepHighTwoBytes(value, reg);
    KeepHighThreeBytes(value, reg);
  }

  lemma StoreRightBytes(value: bv32, reg: bv32, byte: nat)
    requires byte < 4
    ensures Bytes(StoreRight(value, reg, byte)) == LeftBytes(Bytes(value), Bytes(reg), 3 - byte)
  {
    hide Byte0, Byte1, Byte2, Byte3, KeepLowOne, KeepLowTwo, KeepLowThree, KeepHighOne, KeepHighTwo, KeepHighThree, Bytes;
    KeepLowOneBytes(value, reg);
    KeepLowTwoBytes(value, reg);
    KeepLowThreeBytes(value, reg);
  }

  // ---- translation ----

  function Page(va: int): int { va / PAGE_SIZE }
  function Offset(va: int): int { va % PAGE_SIZE }

  lemma AddressParts(va: int)
    requires 0 <= va
    ensures 0 <= Page(va) && 0 <= Offset(va) < PAGE_SIZE && va == Page(va) * PAGE_SIZE + Offset(va)
  {
  }

  lemma SamePage(va: int, k: int)
    requires 0 <= va && 0 <= k && Offset(va) + k < PAGE_SIZE
    ensures Page(va + k) == Page(va) && Offset(va + k) == Offset(va) + k
  {
  }

  /** An aligned halfword or word does not cross a page boundary. */
  lemma AlignedInPage(va: int, size: int)
    requires 0 <= va && (size == 1 || (size == 2 && va % 2 == 0) || (size == 4 && va % 4 == 0))
    ensures Offset(va) + size <= PAGE_SIZE
    ensures size == 4 ==> Offset(va) % 4 == 0
  {
    hide Page, Offset;
    AddressParts(va);
    if size == 4 {
      assert va == 4 * (va / 4);
      assert Offset(va) == 4 * (va / 4 - 32 * Page(va));
    } else if size == 2 {
      assert va == 2 * (va / 2);
      assert Offset(va) == 2 * (va / 2 - 64 * Page(va));
    }
  }

  predicate Misaligned(va: int, size: int)
  {
    (size == 4 && va % 4 != 0) || (size == 2 && va % 2 != 0)
  }

  /** What Machine::Translate answers, with a linear page table. */
  function Check(t: seq<TranslationEntry>, va: int, size: int, writing: bool): ExceptionType
  {
    if Misaligned(va, size) || !(0 <= Page(va) < |t|) then AddressErrorException
    else if !t[Page(va)].valid then PageFaultException
    else if t[Page(va)].readOnly && writing then ReadOnlyException
    else if !(0 <= t[Page(va)].physicalPage < NUM_PHYS_PAGES) then BusErrorException
    else NoException
  }

  /** Where a virtual address of a mapped page is in main memory. */
  function Phys(t: seq<TranslationEntry>, va: int): int
    requires 0 <= Page(va) < |t|
  {
    t[Page(va)].physicalPage * PAGE_SIZE + Offset(va)
  }

  /** The byte at `va` may be accessed. */
  ghost predicate Accessible(t: seq<TranslationEntry>, va: int, writing: bool)
  {
    0 <= va < ADDRESS_LIMIT && Check(t, va, 1, writing).NoException?
  }

  /** Tables that differ in use and dirty bits only. */
  ghost predicate SameMapping(t: seq<TranslationEntry>, u: seq<TranslationEntry>)
  {
    && |t| == |u|
    && forall i :: 0 <= i < |t| ==>
         t[i].physicalPage == u[i].physicalPage && t[i].valid == u[i].valid && t[i].readOnly == u[i].readOnly
  }

  lemma SameMappingSamePhys(t: seq<TranslationEntry>, u: seq<TranslationEntry>, va: int, size: int, writing: bool)
    requires SameMapping(t, u)
    ensures Check(t, va, size, writing) == Check(u, va, size, writing)
    ensures Check(t, va, size, writing).NoException? ==> 0 <= Page(va) < |t| == |u|
    ensures 0 <= Page(va) < |t| ==> Phys(t, va) == Phys(u, va)
  {
    hide Page, Offset, Misaligned;
  }

  lemma SameMappingTransitive(t: seq<TranslationEntry>, u: seq<TranslationEntry>, v: seq<TranslationEntry>)
    requires SameMapping(t, u) && SameMapping(u, v)
    ensures SameMapping(t, v)
  {
  }

  /** Whatever may be written may be read. */
  lemma WritableIsReadable(t: seq<TranslationEntry>, va: int, size: int)
    requires Check(t, va, size, true).NoException?
    ensures Check(t, va, size, false).NoException?
  {
    hide Page, Misaligned;
  }

  /** The table after an access to page `vpn`: use bit set, and dirty bit if written. */
  ghost function Touched(t: seq<TranslationEntry>, vpn: int, writing: bool): seq<TranslationEntry>
    requires 0 <= vpn < |t|
  {
    t[vpn := t[vpn].(use := true, dirty := t[vpn].dirty || writing)]
  }

  /** An access that passes the checks stays inside its frame and inside main memory. */
  lemma AccessStaysInFrame(t: seq<TranslationEntry>, va: int, size: int, writing: bool, k: int)
    requires 0 <= va < ADDRESS_LIMIT && size in {1, 2, 4} && Check(t, va, size, writing).NoException?
    requires 0 <= k < size
    ensures 0 <= Phys(t, va) && Phys(t, va) + size <= MEMORY_SIZE
    ensures Page(va + k) == Page(va) && Phys(t, va + k) == Phys(t, va) + k
    ensures Phys(t, va + k) / PAGE_SIZE == t[Page(va)].physicalPage
  {
    hide Page, Offset;
    AlignedInPage(va, size);
    AddressParts(va);
    SamePage(va, k);
  }

  // ---- a word at any address, as the parts of the aligned words it lies in ----

  function LowPart(va: int): int { va % 4 }

  lemma LowPartFacts(va: int)
    requires 0 <= va
    ensures 0 <= LowPart(va) < 4 && LowPart(va) <= va && (va - LowPart(va)) % 4 == 0
    ensures LowPart(va) == 0 ==> LowPart(va + 3) == 3
    ensures LowPart(va) > 0 ==> LowPart(va + 3) == LowPart(va) - 1
  {
  }

  /** The aligned word around an accessible byte is accessible. */
  lemma AlignedAround(t: seq<TranslationEntry>, va: int, writing: bool)
    requires Accessible(t, va, writing)
    ensures 0 <= va - LowPart(va) && Check(t, va - LowPart(va), 4, writing).NoException?
    ensures 0 <= Page(va - LowPart(va)) < |t|
    ensures var p := Phys(t, va - LowPart(va));
            0 <= p && p + 4 <= MEMORY_SIZE && Phys(t, va) == p + LowPart(va) && p % 4 == 0
  {
    hide Page, Offset, LowPart;
    LowPartFacts(va);
    var w := va - LowPart(va);
    AlignedInPage(w, 4);
    AddressParts(w);
    SamePage(w, LowPart(va));
  }

  /** The bytes at va .. va + 3 may be accessed. */
  ghost predicate WordAccessible(t: seq<TranslationEntry>, va: int, writing: bool)
  {
    && Accessible(t, va, writing) && Accessible(t, va + 1, writing)
    && Accessible(t, va + 2, writing) && Accessible(t, va + 3, writing)
  }

  /** Where they are in main memory. */
  ghost function Cells(t: seq<TranslationEntry>, va: int): (c: seq<int>)
    requires WordAccessible(t, va, false)
    ensures |c| == 4
  {
    [Phys(t, va), Phys(t, va + 1), Phys(t, va + 2), Phys(t, va + 3)]
  }

  lemma CellsInMemory(t: seq<TranslationEntry>, va: int)
    requires WordAccessible(t, va, false)
    ensures forall k :: 0 <= k < 4 ==> 0 <= Cells(t, va)[k] < MEMORY_SIZE
  {
    hide Page, Offset, LowPart, Check;
    LowPartFacts(va); LowPartFacts(va + 1); LowPartFacts(va + 2); LowPartFacts(va + 3);
    AlignedAround(t, va, false);
    AlignedAround(t, va + 1, false);
    AlignedAround(t, va + 2, false);
    AlignedAround(t, va + 3, false);
  }

  /** The virtual word at `va`, byte by byte. */
  ghost function WordAt(t: seq<TranslationEntry>, mem: seq<bv8>, va: int): (b: seq<bv8>)
    requires WordAccessible(t, va, false) && |mem| == MEMORY_SIZE
    ensures |b| == 4
  {
    CellsInMemory(t, va);
    [mem[Cells(t, va)[0]], mem[Cells(t, va)[1]], mem[Cells(t, va)[2]], mem[Cells(t, va)[3]]]
  }

  /** The word's first and last byte lie in these aligned words. */
  function LowWord(va: int): int { va - LowPart(va) }
  function HighWord(va: int): int { LowWord(va + 3) }

  lemma HighWordIs(va: int)
    ensures HighWord(va) == LowWord(va + 3)
  {
  }

  lemma OffsetsDiffer(w: int)
    requires 0 <= w
    ensures Offset(w + 4) != Offset(w)
  {
  }

  lemma FramesApart(f: int, g: int, x: int, y: int)
    requires 0 <= x < PAGE_SIZE && 0 <= y < PAGE_SIZE && x != y
    ensures f * PAGE_SIZE + x != g * PAGE_SIZE + y
  {
  }

  lemma CellIs(t: seq<TranslationEntry>, va: int, k: int)
    requires 0 <= va && 0 <= k < 4 && Accessible(t, va, false) && Accessible(t, va + k, false) && Accessible(t, va + 3, false)
    ensures 0 <= Page(LowWord(va)) < |t| && 0 <= Page(HighWord(va)) < |t|
    ensures Phys(t, va + k) == if LowPart(va) + k < 4 then Phys(t, LowWord(va)) + LowPart(va) + k
                               else Phys(t, HighWord(va)) + LowPart(va) + k - 4
  {
    hide Page, Offset, LowPart, Check, Phys;
    LowPartFacts(va);
    LowPartShift(va, k);
    LowPartShift(va, 3);
    AlignedAround(t, va, false);
    AlignedAround(t, va + k, false);
    AlignedAround(t, va + 3, false);
  }

  lemma WordsApart(t: seq<TranslationEntry>, va: int)
    requires Accessible(t, va, false) && Accessible(t, va + 3, false) && LowPart(va) > 0
    ensures 0 <= Page(LowWord(va)) < |t| && 0 <= Page(HighWord(va)) < |t|
    ensures var p, q := Phys(t, LowWord(va)), Phys(t, HighWord(va)); p + 4 <= q || q + 4 <= p
  {
    hide Page, Offset, LowPart, Check, Phys;
    LowPartFacts(va);
    AlignedAround(t, va, false);
    AlignedAround(t, va + 3, false);
    PartsApart(t, LowWord(va));
  }

  /** The word's bytes are the top of the one aligned word and the bottom of the other, wherever the frames are. */
  lemma CellsSplit(t: seq<TranslationEntry>, va: int)
    requires WordAccessible(t, va, false)
    ensures 0 <= LowWord(va) <= va && 0 <= HighWord(va) <= va + 3
    ensures Check(t, LowWord(va), 4, false).NoException? && Check(t, HighWord(va), 4, false).NoException?
    ensures 0 <= Page(LowWord(va)) < |t| && 0 <= Page(HighWord(va)) < |t|
    ensures var b, p, q := LowPart(va), Phys(t, LowWord(va)), Phys(t, HighWord(va));
            && 0 <= b < 4 && LowPart(va + 3) == (if b == 0 then 3 else b - 1)
            && 0 <= p && p + 4 <= MEMORY_SIZE && 0 <= q && q + 4 <= MEMORY_SIZE
            && (if b == 0 then q == p else p + 4 <= q || q + 4 <= p)
            && (forall k :: 0 <= k < 4 ==> Cells(t, va)[k] == if b + k < 4 then p + b + k else q + b + k - 4)
  {
    hide Page, Offset, LowPart, Check, Phys;
    LowPartFacts(va);
    AlignedAround(t, va, false);
    AlignedAround(t, va + 3, false);
    forall k | 0 <= k < 4
      ensures Cells(t, va)[k] == if LowPart(va) + k < 4 then Phys(t, LowWord(va)) + LowPart(va) + k
                                 else Phys(t, HighWord(va)) + LowPart(va) + k - 4
    {
      CellIs(t, va, k);
    }
    if LowPart(va) > 0 {
      WordsApart(t, va);
    }
  }

  lemma LowPartShift(va: int, k: int)
    requires 0 <= va && 0 <= k < 4
    ensures LowPart(va + k) == if LowPart(va) + k < 4 then LowPart(va) + k else LowPart(va) + k - 4
  {
  }

  lemma PartsApart(t: seq<TranslationEntry>, w: int)
    requires 0 <= w && 0 <= Page(w) < |t| && 0 <= Page(w + 4) < |t|
    ensures Phys(t, w) != Phys(t, w + 4)
  {
    hide Page, Offset;
    OffsetsDiffer(w);
    AddressParts(w);
    AddressParts(w + 4);
    FramesApart(t[Page(w)].physicalPage, t[Page(w + 4)].physicalPage, Offset(w), Offset(w + 4));
  }

  class PageTable {
    var entries: seq<TranslationEntry>

    constructor (entries: seq<TranslationEntry>)
      ensures this.entries == entries
    {
      this.entries := entries;
    }
  }

  /** Writing a whole word that keeps the top of the old one changes only its first bytes. */
  lemma OverwriteLow(mem: seq<bv8>, at: int, b: seq<bv8>)
    requires 0 <= at && at + 4 <= |mem| && |b| <= 4
    ensures Splice(mem, at, b + mem[at..at + 4][|b|..]) == Splice(mem, at, b)
  {
  }

  lemma OverwriteHigh(mem: seq<bv8>, at: int, b: seq<bv8>)
    requires 0 <= at && at + 4 <= |mem| && |b| <= 4
    ensures Splice(mem, at, mem[at..at + 4][..4 - |b|] + b) == Splice(mem, at + 4 - |b|, b)
  {
  }

  /** The bytes of a memory word with the top or the bottom of a register merged in. */
  ghost function MergedBytes(reg: seq<bv8>, word: seq<bv8>, byte: nat, left: bool): (b: seq<bv8>)
    requires |reg| == |word| == 4 && byte < 4
    ensures |b| == 4
  {
    if left then RightBytes(word, reg, 3 - byte) else LeftBytes(word, reg, 3 - byte)
  }

  ghost function MergedInto(mem: seq<bv8>, at: int, reg: seq<bv8>, byte: nat, left: bool): (r: seq<bv8>)
    requires 0 <= at && at + 4 <= |mem| && |reg| == 4 && byte < 4
    ensures |r| == |mem|
  {
    Splice(mem, at, MergedBytes(reg, mem[at..at + 4], byte, left))
  }

  /** Writing such a word back changes just the merged bytes of memory. */
  lemma OverwriteMerged(mem: seq<bv8>, at: int, reg: seq<bv8>, byte: nat, left: bool)
    requires 0 <= at && at + 4 <= |mem| && |reg| == 4 && byte < 4
    ensures MergedInto(mem, at, reg, byte, left)
         == if left then Splice(mem, at, reg[3 - byte..]) else Splice(mem, at + byte, reg[..4 - byte])
  {
    hide Splice;
    var word := mem[at..at + 4];
    if left {
      assert MergedBytes(reg, word, byte, left) == reg[3 - byte..] + word[byte + 1..];
      hide MergedBytes;
      OverwriteLow(mem, at, reg[3 - byte..]);
    } else {
      assert MergedBytes(reg, word, byte, left) == word[..byte] + reg[..4 - byte];
      hide MergedBytes;
      OverwriteHigh(mem, at, reg[..4 - byte]);
    }
  }

  lemma WordWritable(t: seq<TranslationEntry>, va: int)
    requires WordAccessible(t, va, true)
    ensures WordAccessible(t, va, false)
    ensures Check(t, LowWord(va), 4, true).NoException? && Check(t, HighWord(va), 4, true).NoException?
  {
    hide Page, Check, LowPart, Phys;
    WritableIsReadable(t, va, 1);
    WritableIsReadable(t, va + 1, 1);
    WritableIsReadable(t, va + 2, 1);
    WritableIsReadable(t, va + 3, 1);
    AlignedAround(t, va, true);
    AlignedAround(t, va + 3, true);
  }

  /** The aligned word around `va` is mapped. */
  ghost predicate AroundMapped(t: seq<TranslationEntry>, va: int)
  {
    && 0 <= LowPart(va) < 4 && 0 <= Page(LowWord(va)) < |t|
    && 0 <= Phys(t, LowWord(va)) && Phys(t, LowWord(va)) + 4 <= MEMORY_SIZE
  }

  /** Main memory after SWL, and after SWR, of the bytes `reg` at `va`. */
  ghost function StoredLeft(t: seq<TranslationEntry>, mem: seq<bv8>, va: int, reg: seq<bv8>): (r: seq<bv8>)
    requires AroundMapped(t, va) && |mem| == MEMORY_SIZE && |reg| == 4
    ensures |r| == MEMORY_SIZE
  {
    Splice(mem, Phys(t, LowWord(va)), reg[3 - LowPart(va)..])
  }

  ghost function StoredRight(t: seq<TranslationEntry>, mem: seq<bv8>, va: int, reg: seq<bv8>): (r: seq<bv8>)
    requires AroundMapped(t, va) && |mem| == MEMORY_SIZE && |reg| == 4
    ensures |r| == MEMORY_SIZE
  {
    Splice(mem, Phys(t, LowWord(va)) + LowPart(va), reg[..4 - LowPart(va)])
  }

  lemma MergedIsStored(t: seq<TranslationEntry>, mem: seq<bv8>, va: int, reg: seq<bv8>)
    requires AroundMapped(t, va) && |mem| == MEMORY_SIZE && |reg| == 4
    ensures MergedInto(mem, Phys(t, LowWord(va)), reg, LowPart(va), true) == StoredLeft(t, mem, va, reg)
    ensures MergedInto(mem, Phys(t, LowWord(va)), reg, LowPart(va), false) == StoredRight(t, mem, va, reg)
  {
    hide LowPart, LowWord, Phys, Page, MergedInto, Splice;
    OverwriteMerged(mem, Phys(t, LowWord(va)), reg, LowPart(va), true);
    OverwriteMerged(mem, Phys(t, LowWord(va)), reg, LowPart(va), false);
  }

  lemma SameMappingSameAround(t: seq<TranslationEntry>, u: seq<TranslationEntry>, va: int)
    requires SameMapping(t, u) && AroundMapped(t, va)
    ensures AroundMapped(u, va) && Phys(t, LowWord(va)) == Phys(u, LowWord(va))
    ensures forall mem, reg :: |mem| == MEMORY_SIZE && |reg| == 4 ==>
              && StoredLeft(t, mem, va, reg) == StoredLeft(u, mem, va, reg)
              && StoredRight(t, mem, va, reg) == StoredRight(u, mem, va, reg)
  {
    hide Page, LowPart, LowWord, Phys, SameMapping, Splice, Check;
    SameMappingSamePhys(t, u, LowWord(va), 4, true);
    SameMappingSameSize(t, u);
  }

  lemma SameMappingSameSize(t: seq<TranslationEntry>, u: seq<TranslationEntry>)
    requires SameMapping(t, u)
    ensures |t| == |u|
  {
  }

  /** LWL at va + 3 and LWR at va together pick up the whole word. */
  lemma LoadedWord(t: seq<TranslationEntry>, mem: seq<bv8>, va: int, reg: seq<bv8>, left: seq<bv8>, right: seq<bv8>)
    requires WordAccessible(t, va, false) && |mem| == MEMORY_SIZE && |reg| == 4
    requires 0 <= Page(LowWord(va)) < |t| && 0 <= Page(HighWord(va)) < |t|
    requires 0 <= LowPart(va) < 4 && 0 <= LowPart(va + 3) < 4
    requires var p, q, low, high := Phys(t, LowWord(va)), Phys(t, HighWord(va)), LowPart(va), LowPart(va + 3);
             && 0 <= p && p + 4 <= MEMORY_SIZE && 0 <= q && q + 4 <= MEMORY_SIZE
             && left == LeftBytes(reg, mem[q..q + 4], high)
             && right == RightBytes(left, mem[p..p + 4], low)
    ensures right == WordAt(t, mem, va)
  {
    hide LowPart, LowWord, HighWord, Phys, Page, Check, Cells, WordAccessible;
    CellsSplit(t, va);
  }

  /** SWL at va + 3 and SWR at va together write the whole word and nothing else. */
  lemma StoredWord(t: seq<TranslationEntry>, mem: seq<bv8>, va: int, reg: seq<bv8>, mem1: seq<bv8>, mem2: seq<bv8>)
    requires WordAccessible(t, va, false) && |mem| == MEMORY_SIZE && |reg| == 4
    requires AroundMapped(t, va) && AroundMapped(t, va + 3)
    requires mem1 == StoredLeft(t, mem, va + 3, reg) && mem2 == StoredRight(t, mem1, va, reg)
    ensures |mem2| == MEMORY_SIZE && WordAt(t, mem2, va) == reg
    ensures forall x :: 0 <= x < MEMORY_SIZE && x !in Cells(t, va) ==> mem2[x] == mem[x]
  {
    hide LowPart, LowWord, HighWord, Phys, Page, Check, Cells, WordAccessible, Splice;
    HighWordIs(va);
    CellsSplit(t, va);
  }

  /** What DelayedLoad leaves in the general registers. */
  function Settled(registers: seq<bv32>, loadReg: nat, loadValue: bv32): (r: seq<bv32>)
    requires |registers| == 32 && loadReg < 32
    ensures |r| == 32 && r[0] == 0
    ensures forall j :: 0 < j < 32 ==> r[j] == if j == loadReg then loadValue else registers[j]
  {
    registers[loadReg := loadValue][0 := 0]
  }

  lemma SignExtend(b: bv8)
    ensures Byte0(0xffffff00 | (b as bv32)) == b && Byte0(b as bv32) == b
  {
  }

  /** Register plus displacement, in 32 bits. */
  function Effective(base: bv32, extra: int): (a: int)
    ensures 0 <= a < ADDRESS_LIMIT
  {
    (base as int + extra) % ADDRESS_LIMIT
  }

  class Machine {
    var mainMemory: seq<bv8>
    var registers: seq<bv32>       // the general registers
    var loadReg: nat               // target of a delayed load, 0 if none
    var loadValue: bv32
    var badVAddr: int
    var raised: seq<ExceptionType>  // the exceptions handed to the kernel
    var pageTable: PageTable

    /** What holds at every instruction boundary. */
    ghost predicate Valid()
      reads this
    {
      |mainMemory| == MEMORY_SIZE && |registers| == 32 && registers[0] == 0 && loadReg < 32
    }

    constructor (pageTable: PageTable)
      ensures Valid() && this.pageTable == pageTable
    {
      mainMemory := seq(MEMORY_SIZE, _ => 0);
      registers := seq(32, _ => 0);
      loadReg, loadValue, badVAddr, raised := 0, 0, 0, [];
      this.pageTable := pageTable;
    }

    method DelayedLoad(nextReg: nat, nextValue: bv32)
      requires Valid() && nextReg < 32
      modifies this`registers, this`loadReg, this`loadValue
      ensures Valid()
      ensures registers == Settled(old(registers), old(loadReg), old(loadValue))
      ensures loadReg == nextReg && loadValue == nextValue
    {
      registers := registers[loadReg := loadValue];
      loadReg := nextReg;
      loadValue := nextValue;
      registers := registers[0 := 0];
    }

    /** A trap finishes any delayed load before the kernel runs. */
    method RaiseException(which: ExceptionType, addr: int)
      requires Valid()
      modifies this`registers, this`loadReg, this`loadValue, this`badVAddr, this`raised
      ensures Valid() && badVAddr == addr && raised == old(raised) + [which]
      ensures registers == Settled(old(registers), old(loadReg), old(loadValue)) && loadReg == 0
    {
      badVAddr := addr;
      DelayedLoad(0, 0);
      raised := raised + [which];
    }

    method Translate(virtAddr: int, size: int, writing: bool) returns (exception: ExceptionType, physAddr: int)
      requires Valid() && 0 <= virtAddr < ADDRESS_LIMIT && size in {1, 2, 4}
      modifies pageTable
      ensures exception == Check(old(pageTable.entries), virtAddr, size, writing)
      ensures SameMapping(pageTable.entries, old(pageTable.entries))
      ensures !exception.NoException? ==> pageTable.entries == old(pageTable.entries)
      ensures exception.NoException? ==>
                && physAddr == Phys(pageTable.entries, virtAddr)
                && 0 <= physAddr && physAddr + size <= MEMORY_SIZE
                && pageTable.entries == Touched(old(pageTable.entries), Page(virtAddr), writing)
    {
      hide Page, Offset;
      physAddr := 0;
      if Misaligned(virtAddr, size) {
        return AddressErrorException, 0;
      }
      var vpn, offset := Page(virtAddr), Offset(virtAddr);
      AddressParts(virtAddr);
      if vpn >= |pageTable.entries| {
        return AddressErrorException, 0;
      } else if !pageTable.entries[vpn].valid {
        return PageFaultException, 0;
      }
      var entry := pageTable.entries[vpn];
      if entry.readOnly && writing {
        return ReadOnlyException, 0;
      }
      var pageFrame := entry.physicalPage;
      if pageFrame < 0 || pageFrame >= NUM_PHYS_PAGES {
        return BusErrorException, 0;
      }
      AlignedInPage(virtAddr, size);
      entry := entry.(use := true);
      if writing {
        entry := entry.(dirty := true);
      }
      pageTable.entries := pageTable.entries[vpn := entry];
      return NoException, pageFrame * PAGE_SIZE + offset;
    }

    method ReadMem(addr: int, size: int) returns (ok: bool, value: bv32)
      requires Valid() && 0 <= addr < ADDRESS_LIMIT && size in {1, 2, 4}
      modifies this`registers, this`loadReg, this`loadValue, this`badVAddr, this`raised, pageTable
      ensures Valid()
      ensures SameMapping(pageTable.entries, old(pageTable.entries))
      ensures ok <==> Check(old(pageTable.entries), addr, size, false).NoException?
      ensures ok ==> registers == old(registers) && loadReg == old(loadReg) && loadValue == old(loadValue)
      ensures !ok ==> registers == Settled(old(registers), old(loadReg), old(loadValue)) && loadReg == 0
      ensures raised == if ok then old(raised) else old(raised) + [Check(old(pageTable.entries), addr, size, false)]
      ensures ok ==> var p := Phys(pageTable.entries, addr);
                     0 <= p && p + size <= MEMORY_SIZE && Bytes(value)[..size] == mainMemory[p..p + size]
      ensures ok && size < 4 ==> Extended(value, size)
    {
      hide Page, Offset, Check, Byte0, Byte1, Byte2, Byte3, Join, Extended;
      var exception, p := Translate(addr, size, false);
      if !exception.NoException? {
        RaiseException(exception, addr);
        return false, 0;
      }
      ok := true;
      if size == 1 {
        value := CharToInt(mainMemory[p]);
      } else if size == 2 {
        value := ShortToInt(mainMemory[p], mainMemory[p + 1]);
      } else {
        BytesOfJoin(mainMemory[p], mainMemory[p + 1], mainMemory[p + 2], mainMemory[p + 3]);
        value := Join(mainMemory[p], mainMemory[p + 1], mainMemory[p + 2], mainMemory[p + 3]);
      }
    }

    method WriteMem(addr: int, size: int, value: bv32) returns (ok: bool)
      requires Valid() && 0 <= addr < ADDRESS_LIMIT && size in {1, 2, 4}
      modifies this, pageTable
      ensures Valid() && pageTable == old(pageTable)
      ensures SameMapping(pageTable.entries, old(pageTable.entries))
      ensures ok <==> Check(old(pageTable.entries), addr, size, true).NoException?
      ensures !ok ==> mainMemory == old(mainMemory)
      ensures ok ==> registers == old(registers) && loadReg == old(loadReg) && loadValue == old(loadValue)
      ensures !ok ==> registers == Settled(old(registers), old(loadReg), old(loadValue)) && loadReg == 0
      ensures raised == if ok then old(raised) else old(raised) + [Check(old(pageTable.entries), addr, size, true)]
      ensures ok ==> var p := Phys(pageTable.entries, addr);
                     0 <= p && p + size <= MEMORY_SIZE && mainMemory == Splice(old(mainMemory), p, Bytes(value)[..size])
    {
      hide Page, Offset, Check, Byte0, Byte1, Byte2, Byte3;
      var exception, p := Translate(addr, size, true);
      if !exception.NoException? {
        RaiseException(exception, addr);
        return false;
      }
      ok := true;
      mainMemory := Splice(mainMemory, p, Bytes(value)[..size]);
    }

    /** The value of a register that the next instruction but one will see. */
    ghost function Latest(r: nat): bv32
      requires Valid() && r < 32
      reads this
    {
      if loadReg == r then loadValue else registers[r]
    }

    method LoadWordLeft(rs: nat, rt: nat, extra: int) returns (ok: bool)
      requires Valid() && rs < 32 && rt < 32
      modifies this`registers, this`loadReg, this`loadValue, this`badVAddr, this`raised, pageTable
      ensures Valid() && SameMapping(pageTable.entries, old(pageTable.entries))
      ensures registers == Settled(old(registers), old(loadReg), old(loadValue))
      ensures var a := old(Effective(registers[rs], extra));
              && (ok <==> Check(old(pageTable.entries), LowWord(a), 4, false).NoException?)
              && (ok ==> var p, byte := Phys(pageTable.entries, LowWord(a)), LowPart(a);
                         && 0 <= p && p + 4 <= MEMORY_SIZE && 0 <= byte < 4 && loadReg == rt
                         && Bytes(loadValue) == LeftBytes(Bytes(old(Latest(rt))), mainMemory[p..p + 4], byte))
    {
      hide Page, Offset, Check, LowPart, Byte0, Byte1, Byte2, Byte3, Effective, MergeLeft, SameMapping, Phys, Settled, Bytes, LeftBytes;
      var tmp := Effective(registers[rs], extra);
      var byte := LowPart(tmp);
      LowPartFacts(tmp);
      var value;
      ok, value := ReadMem(tmp - byte, 4);
      if !ok {
        return;
      }
      var nextLoadValue := if loadReg == rt then loadValue else registers[rt];
      MergeLeftBytes(nextLoadValue, value, byte);
      assert Bytes(value)[..4] == Bytes(value);
      DelayedLoad(rt, MergeLeft(nextLoadValue, value, byte));
    }

    method LoadWordRight(rs: nat, rt: nat, extra: int) returns (ok: bool)
      requires Valid() && rs < 32 && rt < 32
      modifies this`registers, this`loadReg, this`loadValue, this`badVAddr, this`raised, pageTable
      ensures Valid() && SameMapping(pageTable.entries, old(pageTable.entries))
      ensures registers == Settled(old(registers), old(loadReg), old(loadValue))
      ensures var a := old(Effective(registers[rs], extra));
              && (ok <==> Check(old(pageTable.entries), LowWord(a), 4, false).NoException?)
              && (ok ==> var p, byte := Phys(pageTable.entries, LowWord(a)), LowPart(a);
                         && 0 <= p && p + 4 <= MEMORY_SIZE && 0 <= byte < 4 && loadReg == rt
                         && Bytes(loadValue) == RightBytes(Bytes(old(Latest(rt))), mainMemory[p..p + 4], byte))
    {
      hide Page, Offset, Check, LowPart, Byte0, Byte1, Byte2, Byte3, Effective, MergeRight, SameMapping, Phys, Settled, Bytes, RightBytes;
      var tmp := Effective(registers[rs], extra);
      var byte := LowPart(tmp);
      LowPartFacts(tmp);
      var value;
      ok, value := ReadMem(tmp - byte, 4);
      if !ok {
        return;
      }
      var nextLoadValue := if loadReg == rt then loadValue else registers[rt];
      MergeRightBytes(nextLoadValue, value, byte);
      assert Bytes(value)[..4] == Bytes(value);
      DelayedLoad(rt, MergeRight(nextLoadValue, value, byte));
    }

    method StoreWordLeft(rs: nat, rt: nat, extra: int) returns (ok: bool)
      requires Valid() && rs < 32 && rt < 32
      modifies this, pageTable
      ensures Valid() && pageTable == old(pageTable) && SameMapping(pageTable.entries, old(pageTable.entries))
      ensures registers == Settled(old(registers), old(loadReg), old(loadValue)) && loadReg == 0
      ensures !ok ==> mainMemory == old(mainMemory)
      ensures var a := old(Effective(registers[rs], extra));
              && (ok <==> Check(old(pageTable.entries), LowWord(a), 4, true).NoException?)
              && (ok ==> && AroundMapped(old(pageTable.entries), a)
                         && mainMemory == StoredLeft(old(pageTable.entries), old(mainMemory), a, Bytes(old(registers[rt]))))
    {
      hide Page, Offset, Check, LowPart, Byte0, Byte1, Byte2, Byte3, Effective, StoreLeft, MergedInto, SameMapping, Settled, Bytes,
        StoredLeft, StoredRight, Phys;
      var tmp := Effective(registers[rs], extra);
      var byte := LowPart(tmp);
      LowPartFacts(tmp);
      ghost var t, mem, reg := pageTable.entries, mainMemory, Bytes(registers[rt]);
      ok := StoreMerged(tmp - byte, rt, byte, true);
      if ok {
        MergedIsStored(t, mem, tmp, reg);
      }
    }

    method StoreWordRight(rs: nat, rt: nat, extra: int) returns (ok: bool)
      requires Valid() && rs < 32 && rt < 32
      modifies this, pageTable
      ensures Valid() && pageTable == old(pageTable) && SameMapping(pageTable.entries, old(pageTable.entries))
      ensures registers == Settled(old(registers), old(loadReg), old(loadValue)) && loadReg == 0
      ensures !ok ==> mainMemory == old(mainMemory)
      ensures var a := old(Effective(registers[rs], extra));
              && (ok <==> Check(old(pageTable.entries), LowWord(a), 4, true).NoException?)
              && (ok ==> && AroundMapped(old(pageTable.entries), a)
                         && mainMemory == StoredRight(old(pageTable.entries), old(mainMemory), a, Bytes(old(registers[rt]))))
    {
      hide Page, Offset, Check, LowPart, Byte0, Byte1, Byte2, Byte3, Effective, StoreRight, MergedInto, SameMapping, Settled, Bytes,
        StoredLeft, StoredRight, Phys;
      var tmp := Effective(registers[rs], extra);
      var byte := LowPart(tmp);
      LowPartFacts(tmp);
      ghost var t, mem, reg := pageTable.entries, mainMemory, Bytes(registers[rt]);
      ok := StoreMerged(tmp - byte, rt, byte, false);
      if ok {
        MergedIsStored(t, mem, tmp, reg);
      }
    }

    /** The code a compiler emits to load the word at an arbitrary address, with or without an interrupt
        between the two instructions. The word is then the pending load of rt, and the other registers are
        what they would have been anyway. */
    method LoadUnaligned(rs: nat, rt: nat, left: int, right: int, interrupted: bool)
      requires Valid() && rs < 32 && 0 < rt < 32 && rs != rt && (rs == 0 || loadReg != rs)
      requires Effective(registers[rs], left) == Effective(registers[rs], right) + 3
      requires WordAccessible(pageTable.entries, Effective(registers[rs], right), false)
      modifies this`registers, this`loadReg, this`loadValue, this`badVAddr, this`raised, pageTable
      ensures Valid() && SameMapping(pageTable.entries, old(pageTable.entries))
      ensures loadReg == rt
      ensures Bytes(loadValue) == WordAt(old(pageTable.entries), mainMemory, old(Effective(registers[rs], right)))
      ensures forall r :: 0 < r < 32 && r != rt ==> registers[r] == old(Latest(r))
    {
      hide Page, Check, LowPart, LowWord, HighWord, Effective, Phys, Bytes, SameMapping, WordAt, WordAccessible, LeftBytes, RightBytes, Settled;
      ghost var t, va, reg := pageTable.entries, Effective(registers[rs], right), Bytes(Latest(rt));
      CellsSplit(t, va);
      HighWordIs(va);
      var ok := LoadLeftHalf(rs, rt, left, interrupted);
      ghost var t1, first := pageTable.entries, Bytes(Latest(rt));
      SameMappingSamePhys(t1, t, HighWord(va), 4, false);
      SameMappingSamePhys(t1, t, LowWord(va), 4, false);
      ok := LoadWordRight(rs, rt, right);
      SameMappingSamePhys(pageTable.entries, t1, LowWord(va), 4, false);
      SameMappingTransitive(pageTable.entries, t1, t);
      LoadedWord(t, mainMemory, va, reg, first, Bytes(loadValue));
    }

    /** LWL, and the flush of its delayed load if an interrupt is taken. */
    method LoadLeftHalf(rs: nat, rt: nat, extra: int, interrupted: bool) returns (ok: bool)
      requires Valid() && rs < 32 && 0 < rt < 32 && rs != rt
      modifies this`registers, this`loadReg, this`loadValue, this`badVAddr, this`raised, pageTable
      ensures Valid() && SameMapping(pageTable.entries, old(pageTable.entries))
      ensures var a := old(Effective(registers[rs], extra));
              && (ok <==> Check(old(pageTable.entries), LowWord(a), 4, false).NoException?)
              && (ok ==> var p, byte := Phys(pageTable.entries, LowWord(a)), LowPart(a);
                         && 0 <= p && p + 4 <= MEMORY_SIZE && 0 <= byte < 4
                         && Bytes(Latest(rt)) == LeftBytes(Bytes(old(Latest(rt))), mainMemory[p..p + 4], byte)
                         && (loadReg == rt || loadReg == 0)
                         && (forall r :: 0 < r < 32 && r != rt ==> registers[r] == old(Latest(r))))
    {
      hide Page, Check, LowPart, LowWord, Effective, Phys, Bytes, SameMapping, LeftBytes, Settled;
      ok := LoadWordLeft(rs, rt, extra);
      if ok && interrupted {
        DelayedLoad(0, 0);
      }
    }

    /** The code that stores a register at an arbitrary address writes exactly the four bytes there, on one page
        or two, and nothing else in memory. */
    method StoreUnaligned(rs: nat, rt: nat, left: int, right: int)
      requires Valid() && rs < 32 && rt < 32 && (rs == 0 || loadReg != rs) && (rt == 0 || loadReg != rt)
      requires Effective(registers[rs], left) == Effective(registers[rs], right) + 3
      requires WordAccessible(pageTable.entries, Effective(registers[rs], right), true)
      modifies this, pageTable
      ensures Valid() && pageTable == old(pageTable) && SameMapping(pageTable.entries, old(pageTable.entries))
      ensures var t, va := old(pageTable.entries), old(Effective(registers[rs], right));
              && WordAt(t, mainMemory, va) == Bytes(old(registers[rt]))
              && (forall x :: 0 <= x < MEMORY_SIZE && x !in Cells(t, va) ==> mainMemory[x] == old(mainMemory)[x])
      ensures loadReg == 0 && forall r :: 0 < r < 32 ==> registers[r] == old(Latest(r))
    {
      hide Page, Check, LowPart, LowWord, HighWord, Effective, Phys, Bytes, SameMapping, WordAt, WordAccessible, Cells, Settled,
        StoredLeft, StoredRight, AroundMapped;
      ghost var t, va, reg, mem := pageTable.entries, Effective(registers[rs], right), Bytes(registers[rt]), mainMemory;
      WordWritable(t, va);
      HighWordIs(va);
      var ok := StoreWordLeft(rs, rt, left);
      ghost var t1, mem1 := pageTable.entries, mainMemory;
      SameMappingSamePhys(t1, t, LowWord(va), 4, true);
      ok := StoreWordRight(rs, rt, right);
      SameMappingTransitive(pageTable.entries, t1, t);
      SameMappingSameAround(t1, t, va);
      StoredWord(t, mem, va, reg, mem1, mainMemory);
    }

    /** Reads the aligned word, replaces part of it by part of register `rt`, and writes it back. */
    method StoreMerged(word: int, rt: nat, byte: nat, left: bool) returns (ok: bool)
      requires Valid() && rt < 32 && 0 <= word < ADDRESS_LIMIT && byte < 4
      modifies this, pageTable
      ensures Valid() && pageTable == old(pageTable) && SameMapping(pageTable.entries, old(pageTable.entries))
      ensures registers == Settled(old(registers), old(loadReg), old(loadValue)) && loadReg == 0
      ensures !ok ==> mainMemory == old(mainMemory)
      ensures ok <==> Check(old(pageTable.entries), word, 4, true).NoException?
      ensures ok ==> && 0 <= Page(word) < |old(pageTable.entries)|
                     && var p := Phys(old(pageTable.entries), word);
                     && 0 <= p && p + 4 <= MEMORY_SIZE
                     && mainMemory == MergedInto(old(mainMemory), p, Bytes(old(registers[rt])), byte, left)
    {
      hide Page, Offset, Check, Byte0, Byte1, Byte2, Byte3, StoreLeft, StoreRight, Splice, SameMapping, Phys, Settled, Bytes, MergedBytes;
      ghost var before, mem := pageTable.entries, mainMemory;
      var value;
      ok, value := ReadMem(word, 4);
      if !ok {
        assert !Check(before, word, 4, true).NoException? by {
          if Check(before, word, 4, true).NoException? {
            WritableIsReadable(before, word, 4);
          }
        }
        return;
      }
      ghost var between := pageTable.entries;
      SameMappingSamePhys(between, before, word, 4, true);
      assert Bytes(value)[..4] == Bytes(value);
      value := Merged(value, registers[rt], byte, left);
      ok := WriteMem(word, 4, value);
      assert Bytes(value)[..4] == Bytes(value);
      SameMappingTransitive(pageTable.entries, between, before);
      if !ok {
        return;
      }
      SameMappingSamePhys(pageTable.entries, between, word, 4, true);
      DelayedLoad(0, 0);
    }
  }

  method Merged(value: bv32, reg: bv32, byte: nat, left: bool) returns (r: bv32)
    requires byte < 4
    ensures Bytes(r) == MergedBytes(Bytes(reg), Bytes(value), byte, left)
  {
    hide Byte0, Byte1, Byte2, Byte3, StoreLeft, StoreRight, Bytes;
    if left {
      StoreLeftBytes(value, reg, byte);
      return StoreLeft(value, reg, byte);
    } else {
      StoreRightBytes(value, reg, byte);
      return StoreRight(value, reg, byte);
    }
  }

  /** What fills the rest of a register after a short load: a byte is sign-extended, a halfword is not. */
  ghost predicate Extended(value: bv32, size: int)
  {
    if size == 1 then value & 0xffffff00 == (if value & 0x80 != 0 then 0xffffff00 else 0)
    else value & 0xffff0000 == 0
  }

  /** A char widened to an int. */
  method CharToInt(c: bv8) returns (value: bv32)
    ensures Bytes(value)[..1] == [c] && Extended(value, 1)
  {
    value := if c >= 0x80 then 0xffffff00 | (c as bv32) else c as bv32;
    SignExtend(c);
  }

  method ShortToInt(b0: bv8, b1: bv8) returns (value: bv32)
    ensures Bytes(value)[..2] == [b0, b1] && Extended(value, 2)
  {
    value := Join(b0, b1, 0, 0);
    BytesOfJoin(b0, b1, 0, 0);
  }
}
