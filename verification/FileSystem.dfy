/** The file system (filesys/filesys.cc): a free-sector map and a directory, both stored as files of
    the system they describe, with the headers of these two files in sectors 0 and 1. */
module FileSystems {
  import opened Bytes
  import opened Sequences
  import opened Bitmaps
  import opened FileHeaders
  import opened OpenFiles
  import PersistentBitmaps
  import opened Directories
  import opened Runs

  const FREE_MAP_SECTOR := 0
  const DIRECTORY_SECTOR := 1
  const FREE_MAP_FILE_SIZE := NUM_SECTORS / 8
  const NUM_DIR_ENTRIES := 10
  const DIRECTORY_FILE_SIZE := ENTRY_SIZE * NUM_DIR_ENTRIES

  /** What the disk says: the free sectors, the directory table, and the header of every live file
      (free map and directory included), by header sector. */
  datatype Volume = Volume(free: set<int>, dir: seq<Entry>, hdrs: map<int, Header>)

  ghost predicate IsSector(s: int)
  {
    0 <= s < NUM_SECTORS
  }

  ghost function HeaderSectors(dir: seq<Entry>): set<int>
  {
    {FREE_MAP_SECTOR, DIRECTORY_SECTOR} + set i | 0 <= i < |dir| && dir[i].inUse :: dir[i].sector
  }

  /** The two well-known headers can be read. */
  ghost predicate Mountable(d: seq<Sector>)
  {
    && |d| == NUM_SECTORS
    && DecodeHeader(d[FREE_MAP_SECTOR]).WellFormed() && DecodeHeader(d[FREE_MAP_SECTOR]).numBytes == FREE_MAP_FILE_SIZE
    && DecodeHeader(d[DIRECTORY_SECTOR]).WellFormed() && DecodeHeader(d[DIRECTORY_SECTOR]).numBytes == DIRECTORY_FILE_SIZE
  }

  /** The volume recorded, byte for byte, on disk `d`. */
  ghost function Mount(d: seq<Sector>): Volume
    requires Mountable(d)
  {
    var dir := DecodeTable(FileBytes(d, DecodeHeader(d[DIRECTORY_SECTOR])));
    Volume(PersistentBitmaps.StoredFree(FileBytes(d, DecodeHeader(d[FREE_MAP_SECTOR]))),
           dir,
           map s | s in HeaderSectors(dir) && 0 <= s < NUM_SECTORS :: DecodeHeader(d[s]))
  }

  /** The sectors of the file whose header is in sector `s`. */
  ghost function Owned(hdrs: map<int, Header>, s: int): set<int>
    requires s in hdrs && 0 <= hdrs[s].numSectors <= |hdrs[s].dataSectors|
  {
    {s} + hdrs[s].Data()
  }

  ghost predicate HeadersOK(hdrs: map<int, Header>)
  {
    && (forall s :: s in hdrs ==> IsSector(s) && hdrs[s].WellFormed() && s !in hdrs[s].Data())
    && (forall s, t :: s in hdrs && t in hdrs && s != t ==> Owned(hdrs, s) !! Owned(hdrs, t))
  }

  /** In-use slots have different names and header sectors of their own. */
  ghost predicate DirectoryOK(dir: seq<Entry>)
  {
    && |dir| == NUM_DIR_ENTRIES && Storable(dir)
    && (forall i :: 0 <= i < |dir| && dir[i].inUse ==>
          dir[i].sector != FREE_MAP_SECTOR && dir[i].sector != DIRECTORY_SECTOR)
    && (forall i, j :: 0 <= i < j < |dir| && dir[i].inUse && dir[j].inUse ==>
          dir[i].sector != dir[j].sector && Key(dir[i].name) != Key(dir[j].name))
  }

  /** Whether `x` belongs to no live file. */
  ghost predicate Unowned(hdrs: map<int, Header>, x: int)
    requires HeadersOK(hdrs)
  {
    forall s :: s in hdrs ==> x !in Owned(hdrs, s)
  }

  /** A sector is marked exactly when it belongs to a live file, and to one only. */
  ghost predicate Consistent(v: Volume)
  {
    && DirectoryOK(v.dir) && v.hdrs.Keys == HeaderSectors(v.dir) && HeadersOK(v.hdrs)
    && v.hdrs[FREE_MAP_SECTOR].numBytes == FREE_MAP_FILE_SIZE
    && v.hdrs[DIRECTORY_SECTOR].numBytes == DIRECTORY_FILE_SIZE
    && (forall x :: x in v.free ==> IsSector(x))
    && (forall x :: IsSector(x) ==> (x in v.free <==> Unowned(v.hdrs, x)))
  }

  // ---- what Create and Remove do to a volume ----

  /** `name` now names a new file of `size` bytes: slot `i`, header `h` in sector `s`, all taken from the free sectors. */
  ghost predicate CreatedAs(v: Volume, w: Volume, name: seq<byte>, size: int, i: int, s: int, h: Header)
  {
    && 0 <= i < |v.dir| == |w.dir| && !v.dir[i].inUse
    && w.dir == v.dir[i := w.dir[i]] && Names(w.dir[i], name) && w.dir[i].sector == s
    && |w.dir[i].name| == FILE_NAME_MAX_LEN + 1
    && h.WellFormed() && h.numBytes == size
    && s in v.free && h.Data() <= v.free - {s}
    && w.free == v.free - {s} - h.Data() && w.hdrs == v.hdrs[s := h]
  }

  ghost predicate Created(v: Volume, w: Volume, name: seq<byte>, size: int)
  {
    !Listed(v.dir, name) && exists i, s, h :: CreatedAs(v, w, name, size, i, s, h)
  }

  /** The file in slot `i` is gone and its sectors are free. */
  ghost predicate RemovedAs(v: Volume, w: Volume, name: seq<byte>, i: int)
  {
    && 0 <= i < |v.dir| && Names(v.dir[i], name) && w.dir == v.dir[i := v.dir[i].(inUse := false)]
    && var s := v.dir[i].sector;
    && s in v.hdrs && v.hdrs[s].WellFormed()
    && w.free == v.free + Owned(v.hdrs, s) && w.hdrs == v.hdrs - {s}
  }

  ghost predicate Removed(v: Volume, w: Volume, name: seq<byte>)
  {
    exists i :: RemovedAs(v, w, name, i)
  }

  lemma HeaderSectorsAfterAdd(dir: seq<Entry>, i: int, e: Entry)
    requires 0 <= i < |dir| && !dir[i].inUse && e.inUse
    ensures HeaderSectors(dir[i := e]) == HeaderSectors(dir) + {e.sector}
  {
    var dir' := dir[i := e];
    assert e.sector in HeaderSectors(dir') by { assert dir'[i].sector == e.sector; }
    forall k | 0 <= k < |dir| && dir[k].inUse ensures dir[k].sector in HeaderSectors(dir') {
      assert dir'[k] == dir[k];
    }
  }

  lemma HeaderSectorsAfterRemove(dir: seq<Entry>, i: int)
    requires DirectoryOK(dir) && 0 <= i < |dir| && dir[i].inUse
    ensures HeaderSectors(dir[i := dir[i].(inUse := false)]) == HeaderSectors(dir) - {dir[i].sector}
  {
    var dir' := dir[i := dir[i].(inUse := false)];
    forall k | 0 <= k < |dir| && dir[k].inUse && k != i ensures dir[k].sector in HeaderSectors(dir') {
      assert dir'[k] == dir[k];
    }
  }

  lemma OwnedUnchanged(hdrs: map<int, Header>, s: int, h: Header, t: int)
    requires HeadersOK(hdrs) && t in hdrs && t != s
    ensures Owned(hdrs[s := h], t) == Owned(hdrs, t)
  {
  }

  lemma CreatePreservesHeaders(v: Volume, s: int, h: Header)
    requires Consistent(v) && s in v.free && h.WellFormed() && h.Data() <= v.free - {s}
    ensures HeadersOK(v.hdrs[s := h])
  {
    hide DirectoryOK, HeaderSectors;
    var hdrs' := v.hdrs[s := h];
    assert Owned(hdrs', s) <= v.free;
    forall t | t in hdrs' && t != s ensures Owned(hdrs', t) == Owned(v.hdrs, t) && Owned(hdrs', t) !! v.free {
      OwnedUnchanged(v.hdrs, s, h, t);
      NotOwnedWhenFree(v, t);
    }
    hide Consistent, Owned;
    forall t, u | t in hdrs' && u in hdrs' && t != u ensures Owned(hdrs', t) !! Owned(hdrs', u) {
      if t != s && u != s {
        assert Owned(v.hdrs, t) !! Owned(v.hdrs, u);
      }
    }
  }

  lemma NotOwnedWhenFree(v: Volume, t: int)
    requires Consistent(v) && t in v.hdrs
    ensures Owned(v.hdrs, t) !! v.free
  {
    hide DirectoryOK, HeaderSectors, Owned;
    forall x | x in v.free ensures x !in Owned(v.hdrs, t) {
      assert IsSector(x) && Unowned(v.hdrs, x);
    }
  }

  lemma FreeSectorHasNoHeader(v: Volume, s: int)
    requires Consistent(v) && s in v.free
    ensures s !in v.hdrs
  {
    assert forall t :: t in v.hdrs ==> t in Owned(v.hdrs, t);
  }

  lemma AddKeepsDirectory(dir: seq<Entry>, i: int, e: Entry)
    requires DirectoryOK(dir) && 0 <= i < |dir| && e.inUse && IsSector(e.sector) && |e.name| == FILE_NAME_MAX_LEN + 1
    requires e.sector != FREE_MAP_SECTOR && e.sector != DIRECTORY_SECTOR
    requires forall j :: 0 <= j < |dir| && dir[j].inUse ==> dir[j].sector != e.sector && Key(dir[j].name) != Key(e.name)
    ensures DirectoryOK(dir[i := e])
  {
  }

  lemma NewEntryDiffers(v: Volume, name: seq<byte>, e: Entry, j: int)
    requires Consistent(v) && e.sector in v.free && Key(e.name) == Key(name) && !Listed(v.dir, name)
    requires 0 <= j < |v.dir| && v.dir[j].inUse
    ensures v.dir[j].sector != e.sector && Key(v.dir[j].name) != Key(e.name)
  {
    FreeSectorHasNoHeader(v, e.sector);
    assert v.dir[j].sector in HeaderSectors(v.dir);
    assert !Names(v.dir[j], name);
  }

  lemma CreatePreservesConsistency(v: Volume, w: Volume, name: seq<byte>, size: int, i: int, s: int, h: Header)
    requires Consistent(v) && !Listed(v.dir, name) && CreatedAs(v, w, name, size, i, s, h)
    ensures Consistent(w)
  {
    HeaderSectorsAfterAdd(v.dir, i, w.dir[i]);
    CreatePreservesHeaders(v, s, h);
    FreeSectorHasNoHeader(v, s);
    forall j | 0 <= j < |v.dir| && v.dir[j].inUse
      ensures v.dir[j].sector != s && Key(v.dir[j].name) != Key(w.dir[i].name)
    {
      NewEntryDiffers(v, name, w.dir[i], j);
    }
    AddKeepsDirectory(v.dir, i, w.dir[i]);
    hide DirectoryOK, HeaderSectors, Listed;
    forall x | IsSector(x) ensures x in w.free <==> Unowned(w.hdrs, x) {
      UnownedAfterAdd(v.hdrs, s, h, x);
    }
  }

  lemma UnownedAfterAdd(hdrs: map<int, Header>, s: int, h: Header, x: int)
    requires HeadersOK(hdrs) && s !in hdrs && h.WellFormed() && HeadersOK(hdrs[s := h])
    ensures Unowned(hdrs[s := h], x) <==> Unowned(hdrs, x) && x != s && x !in h.Data()
  {
    var hdrs' := hdrs[s := h];
    forall t | t in hdrs ensures Owned(hdrs', t) == Owned(hdrs, t) {
      OwnedUnchanged(hdrs, s, h, t);
    }
    assert Owned(hdrs', s) == {s} + h.Data();
    if Unowned(hdrs', x) {
      assert forall t :: t in hdrs ==> t in hdrs';
    }
  }

  lemma RemoveKeepsHeaders(hdrs: map<int, Header>, s: int)
    requires HeadersOK(hdrs) && s in hdrs
    ensures HeadersOK(hdrs - {s})
    ensures forall t :: t in hdrs && t != s ==> Owned(hdrs - {s}, t) == Owned(hdrs, t)
  {
  }

  lemma RemoveKeepsDirectory(dir: seq<Entry>, i: int)
    requires DirectoryOK(dir) && 0 <= i < |dir| && dir[i].inUse
    ensures DirectoryOK(dir[i := dir[i].(inUse := false)])
  {
  }

  lemma UnownedAfterRemove(hdrs: map<int, Header>, s: int, x: int)
    requires HeadersOK(hdrs) && s in hdrs && HeadersOK(hdrs - {s})
    ensures Unowned(hdrs - {s}, x) <==> Unowned(hdrs, x) || x in Owned(hdrs, s)
  {
    RemoveKeepsHeaders(hdrs, s);
    if x in Owned(hdrs, s) {
      assert forall t :: t in hdrs && t != s ==> Owned(hdrs, t) !! Owned(hdrs, s);
    }
  }

  lemma RemovePreservesConsistency(v: Volume, w: Volume, name: seq<byte>, i: int)
    requires Consistent(v) && RemovedAs(v, w, name, i)
    ensures Consistent(w)
  {
    var s := v.dir[i].sector;
    HeaderSectorsAfterRemove(v.dir, i);
    RemoveKeepsDirectory(v.dir, i);
    RemoveKeepsHeaders(v.hdrs, s);
    OwnedAreSectors(v.hdrs, s);
    forall x | IsSector(x) ensures x in w.free <==> Unowned(w.hdrs, x) {
      UnownedAfterRemove(v.hdrs, s, x);
    }
  }

  lemma OwnedAreSectors(hdrs: map<int, Header>, s: int)
    requires HeadersOK(hdrs) && s in hdrs
    ensures forall x :: x in Owned(hdrs, s) ==> IsSector(x)
  {
    var h := hdrs[s];
    forall x | x in h.Data() ensures IsSector(x) {
      var k :| 0 <= k < h.numSectors && h.dataSectors[..h.numSectors][k] == x;
    }
  }

  /** Creating a file and removing it again restores the free map and the headers, and the directory
      up to the contents of a slot that is not in use. */
  lemma CreateThenRemove(v: Volume, w: Volume, u: Volume, name: seq<byte>, size: int)
    requires Consistent(v) && Created(v, w, name, size) && Removed(w, u, name)
    ensures u.free == v.free && u.hdrs == v.hdrs
    ensures |u.dir| == |v.dir|
    ensures forall k :: 0 <= k < |v.dir| ==> u.dir[k] == v.dir[k] || (!u.dir[k].inUse && !v.dir[k].inUse)
  {
    var i, s, h :| CreatedAs(v, w, name, size, i, s, h);
    var j :| RemovedAs(w, u, name, j);
    assert DirectoryOK(w.dir) by { CreatePreservesConsistency(v, w, name, size, i, s, h); }
    OneSlotPerName(w.dir, name, i, j);
    FreeSectorHasNoHeader(v, s);
    UndoCreate(v, w, u, name, size, i, s, h);
  }

  lemma UndoCreate(v: Volume, w: Volume, u: Volume, name: seq<byte>, size: int, i: int, s: int, h: Header)
    requires CreatedAs(v, w, name, size, i, s, h) && RemovedAs(w, u, name, i) && s !in v.hdrs
    ensures u.free == v.free && u.hdrs == v.hdrs && u.dir == v.dir[i := w.dir[i].(inUse := false)]
  {
    assert v.hdrs[s := h] - {s} == v.hdrs;
    assert Owned(w.hdrs, s) == {s} + h.Data();
  }

  lemma OneSlotPerName(dir: seq<Entry>, name: seq<byte>, i: int, j: int)
    requires DirectoryOK(dir) && 0 <= i < |dir| && 0 <= j < |dir| && Names(dir[i], name) && Names(dir[j], name)
    ensures i == j
  {
  }

  // ---- runs ----

  /** One operation of the file system on a volume, successful or not. */
  ghost predicate Step(v: Volume, w: Volume)
  {
    || w == v
    || (exists name, size :: Created(v, w, name, size))
    || (exists name :: Removed(v, w, name))
  }

  lemma StepPreservesConsistency(v: Volume, w: Volume)
    requires Consistent(v) && Step(v, w)
    ensures Consistent(w)
  {
    if name, size :| Created(v, w, name, size) {
      var i, s, h :| CreatedAs(v, w, name, size, i, s, h);
      CreatePreservesConsistency(v, w, name, size, i, s, h);
    } else if name :| Removed(v, w, name) {
      var i :| RemovedAs(v, w, name, i);
      RemovePreservesConsistency(v, w, name, i);
    }
  }

  /** After any sequence of Create and Remove the volume is still consistent. */
  lemma RunsStayConsistent(run: seq<Volume>, n: nat)
    requires IsRun(run, v => Consistent(v), (v, w) => Step(v, w)) && n < |run|
    ensures Consistent(run[n])
  {
    forall v, w | Consistent(v) && Step(v, w) ensures Consistent(w) {
      StepPreservesConsistency(v, w);
    }
    InvariantHolds(run, v => Consistent(v), (v, w) => Step(v, w), v => Consistent(v), n);
  }

  // ---- the file system object ----

  /** A disk whose two well-known files were rewritten, and perhaps some headers, mounts as expected. */
  lemma MountAfter(d: seq<Sector>, e: seq<Sector>, w: Volume)
    requires Mountable(d) && |e| == NUM_SECTORS
    requires e[FREE_MAP_SECTOR] == d[FREE_MAP_SECTOR] && e[DIRECTORY_SECTOR] == d[DIRECTORY_SECTOR]
    requires PersistentBitmaps.StoredFree(FileBytes(e, DecodeHeader(d[FREE_MAP_SECTOR]))) == w.free
    requires DecodeTable(FileBytes(e, DecodeHeader(d[DIRECTORY_SECTOR]))) == w.dir
    requires w.hdrs.Keys == HeaderSectors(w.dir)
    requires forall t :: t in w.hdrs ==> IsSector(t) && DecodeHeader(e[t]) == w.hdrs[t]
    ensures Mountable(e) && Mount(e) == w
  {
    assert Mount(e).hdrs == w.hdrs;
  }

  /** The three writes of Create do not disturb each other, nor any other live header. */
  lemma DisksAgree(v: Volume, w: Volume, d: seq<Sector>, d1: seq<Sector>, d2: seq<Sector>, e: seq<Sector>, sector: int)
    requires Mountable(d) && v == Mount(d) && Consistent(v) && Consistent(w)
    requires sector in v.free && sector in w.hdrs && w.hdrs == v.hdrs[sector := w.hdrs[sector]]
    requires |d1| == |d2| == |e| == NUM_SECTORS
    requires DecodeHeader(d1[sector]) == w.hdrs[sector]
    requires forall s :: 0 <= s < NUM_SECTORS && s != sector ==> d1[s] == d[s]
    requires forall s :: 0 <= s < NUM_SECTORS && s !in v.hdrs[DIRECTORY_SECTOR].Data() ==> d2[s] == d1[s]
    requires forall s :: 0 <= s < NUM_SECTORS && s !in v.hdrs[FREE_MAP_SECTOR].Data() ==> e[s] == d2[s]
    ensures forall t :: t in w.hdrs ==> IsSector(t) && DecodeHeader(e[t]) == w.hdrs[t]
    ensures e[FREE_MAP_SECTOR] == d[FREE_MAP_SECTOR] && e[DIRECTORY_SECTOR] == d[DIRECTORY_SECTOR]
    ensures FileBytes(e, v.hdrs[DIRECTORY_SECTOR]) == FileBytes(d2, v.hdrs[DIRECTORY_SECTOR])
  {
    hide Mount, Consistent;
    WellKnownThere(v);
    WellKnownThere(w);
    FreeIsSector(v, sector);
    WellKnownApart(v);
    forall t | t in w.hdrs ensures IsSector(t) && e[t] == d1[t] && DecodeHeader(e[t]) == w.hdrs[t] {
      HeaderNotInData(w, t, DIRECTORY_SECTOR);
      HeaderNotInData(w, t, FREE_MAP_SECTOR);
      if t != sector {
        MountedHeader(d, t);
      }
    }
    SameSectorsSameBytes(e, d2, v.hdrs[DIRECTORY_SECTOR]);
  }

  lemma MountedHeader(d: seq<Sector>, t: int)
    requires Mountable(d) && t in Mount(d).hdrs
    ensures IsSector(t) && Mount(d).hdrs[t] == DecodeHeader(d[t])
  {
  }

  lemma WellKnownThere(v: Volume)
    requires Consistent(v)
    ensures FREE_MAP_SECTOR in v.hdrs && DIRECTORY_SECTOR in v.hdrs
    ensures forall s :: s in v.hdrs ==> IsSector(s) && v.hdrs[s].WellFormed()
  {
  }

  /** The three writes of Create make `w` the state of the disk, and leave the other files alone. */
  lemma CreateCommitted(v: Volume, w: Volume, d: seq<Sector>, d1: seq<Sector>, d2: seq<Sector>, e: seq<Sector>,
                        name: seq<byte>, size: int, i: int, sector: int, h: Header)
    requires Mountable(d) && v == Mount(d) && Consistent(v)
    requires !Listed(v.dir, name) && CreatedAs(v, w, name, size, i, sector, h)
    requires |d1| == |d2| == |e| == NUM_SECTORS && IsSector(sector) && DecodeHeader(d1[sector]) == h
    requires forall s :: 0 <= s < NUM_SECTORS && s != sector ==> d1[s] == d[s]
    requires forall s :: 0 <= s < NUM_SECTORS && s !in DecodeHeader(d[DIRECTORY_SECTOR]).Data() ==> d2[s] == d1[s]
    requires forall s :: 0 <= s < NUM_SECTORS && s !in DecodeHeader(d[FREE_MAP_SECTOR]).Data() ==> e[s] == d2[s]
    requires DecodeTable(FileBytes(d2, DecodeHeader(d[DIRECTORY_SECTOR]))) == w.dir
    requires PersistentBitmaps.StoredFree(FileBytes(e, DecodeHeader(d[FREE_MAP_SECTOR]))) == w.free
    ensures Mountable(e) && Mount(e) == w && Consistent(w)
    ensures e[FREE_MAP_SECTOR] == d[FREE_MAP_SECTOR] && e[DIRECTORY_SECTOR] == d[DIRECTORY_SECTOR]
    ensures SameFiles(d, e, v.hdrs, UserFiles(v))
  {
    hide DirectoryOK, Owned, DecodeTable, PersistentBitmaps.StoredFree, DecodeHeader, SameFiles;
    CreatePreservesConsistency(v, w, name, size, i, sector, h);
    DisksAgree(v, w, d, d1, d2, e, sector);
    MountAfter(d, e, w);
    UserFilesKept(d, e, v, sector);
  }

  /** The two writes of Remove do the same. */
  lemma RemoveCommitted(v: Volume, w: Volume, d: seq<Sector>, d1: seq<Sector>, e: seq<Sector>, name: seq<byte>, i: int)
    requires Mountable(d) && v == Mount(d) && Consistent(v) && RemovedAs(v, w, name, i)
    requires |d1| == |e| == NUM_SECTORS
    requires forall s :: 0 <= s < NUM_SECTORS && s !in DecodeHeader(d[FREE_MAP_SECTOR]).Data() ==> d1[s] == d[s]
    requires forall s :: 0 <= s < NUM_SECTORS && s !in DecodeHeader(d[DIRECTORY_SECTOR]).Data() ==> e[s] == d1[s]
    requires PersistentBitmaps.StoredFree(FileBytes(d1, DecodeHeader(d[FREE_MAP_SECTOR]))) == w.free
    requires DecodeTable(FileBytes(e, DecodeHeader(d[DIRECTORY_SECTOR]))) == w.dir
    ensures Mountable(e) && Mount(e) == w && Consistent(w)
    ensures e[FREE_MAP_SECTOR] == d[FREE_MAP_SECTOR] && e[DIRECTORY_SECTOR] == d[DIRECTORY_SECTOR]
    ensures SameFiles(d, e, v.hdrs, UserFiles(v))
  {
    hide DirectoryOK, Owned, DecodeTable, PersistentBitmaps.StoredFree, DecodeHeader, SameFiles;
    RemovePreservesConsistency(v, w, name, i);
    DisksAgreeOnRemove(v, w, d, d1, e);
    MountAfter(d, e, w);
    UserFilesKept(d, e, v, FREE_MAP_SECTOR);
  }

  /** A free sector is a sector, and not one of the well-known two. */
  lemma FreeIsSector(v: Volume, sector: int)
    requires Consistent(v) && sector in v.free
    ensures IsSector(sector) && sector != FREE_MAP_SECTOR && sector != DIRECTORY_SECTOR
  {
    FreeSectorHasNoHeader(v, sector);
  }

  lemma WellKnownApart(v: Volume)
    requires Consistent(v)
    ensures v.hdrs[DIRECTORY_SECTOR].Data() !! v.hdrs[FREE_MAP_SECTOR].Data()
  {
    assert Owned(v.hdrs, DIRECTORY_SECTOR) !! Owned(v.hdrs, FREE_MAP_SECTOR);
  }

  lemma EntriesPointToSectors(v: Volume)
    requires Consistent(v)
    ensures forall i :: 0 <= i < |v.dir| && v.dir[i].inUse ==> IsSector(v.dir[i].sector)
  {
    assert forall i :: 0 <= i < |v.dir| && v.dir[i].inUse ==> v.dir[i].sector in HeaderSectors(v.dir);
  }

  lemma HeaderNotInData(w: Volume, t: int, s: int)
    requires Consistent(w) && t in w.hdrs && s in w.hdrs
    ensures t !in w.hdrs[s].Data()
  {
    if t != s {
      assert Owned(w.hdrs, t) !! Owned(w.hdrs, s);
    }
  }

  lemma EnoughForFormat(free: set<int>)
    requires forall i :: 2 <= i < NUM_SECTORS ==> i in free
    ensures |free| >= 3
  {
    var three: set<int> := {2, 3, 4};
    assert free == three + (free - three);
  }

  lemma {:induction false} ElemsBound(s: seq<int>)
    ensures |Elems(s)| <= |s|
  {
    if s == [] {
      assert Elems(s) == {};
    } else {
      ElemsBound(s[1..]);
      assert Elems(s) == {s[0]} + Elems(s[1..]);
    }
  }

  lemma AllocationLeaves(free: set<int>, h: Header)
    requires h.WellFormed() && h.Data() <= free
    ensures |free - h.Data()| >= |free| - DivRoundUp(h.numBytes, SECTOR_SIZE)
  {
    ElemsBound(h.dataSectors[..h.numSectors]);
    assert free == (free - h.Data()) + h.Data();
  }

  ghost function FormattedVolume(free0: set<int>, mapHdr: Header, dirHdr: Header, dir: seq<Entry>): Volume
    requires mapHdr.WellFormed() && dirHdr.WellFormed()
  {
    Volume(free0 - mapHdr.Data() - dirHdr.Data(), dir, map[FREE_MAP_SECTOR := mapHdr, DIRECTORY_SECTOR := dirHdr])
  }

  ghost predicate FormatInput(free0: set<int>, mapHdr: Header, dirHdr: Header, dir: seq<Entry>)
  {
    && (forall x :: x in free0 ==> 2 <= x < NUM_SECTORS) && (forall x :: 2 <= x < NUM_SECTORS ==> x in free0)
    && mapHdr.WellFormed() && mapHdr.numBytes == FREE_MAP_FILE_SIZE && mapHdr.Data() <= free0
    && dirHdr.WellFormed() && dirHdr.numBytes == DIRECTORY_FILE_SIZE && dirHdr.Data() <= free0 - mapHdr.Data()
    && |dir| == NUM_DIR_ENTRIES && Storable(dir) && forall i :: 0 <= i < |dir| ==> !dir[i].inUse
  }

  lemma FormattedIsConsistent(free0: set<int>, mapHdr: Header, dirHdr: Header, dir: seq<Entry>)
    requires FormatInput(free0, mapHdr, dirHdr, dir)
    ensures Consistent(FormattedVolume(free0, mapHdr, dirHdr, dir))
  {
    var v := FormattedVolume(free0, mapHdr, dirHdr, dir);
    FormattedHeaders(free0, mapHdr, dirHdr, dir);
    assert DirectoryOK(dir) && HeaderSectors(dir) == {FREE_MAP_SECTOR, DIRECTORY_SECTOR};
    hide DirectoryOK, HeaderSectors, HeadersOK, Header.WellFormed;
    forall x | IsSector(x) ensures x in v.free <==> Unowned(v.hdrs, x) {
      assert x in Owned(v.hdrs, FREE_MAP_SECTOR) || x in Owned(v.hdrs, DIRECTORY_SECTOR) <==> !Unowned(v.hdrs, x);
    }
  }

  lemma FormattedHeaders(free0: set<int>, mapHdr: Header, dirHdr: Header, dir: seq<Entry>)
    requires FormatInput(free0, mapHdr, dirHdr, dir)
    ensures var hdrs := FormattedVolume(free0, mapHdr, dirHdr, dir).hdrs;
            && hdrs.Keys == {FREE_MAP_SECTOR, DIRECTORY_SECTOR} && HeadersOK(hdrs)
            && Owned(hdrs, FREE_MAP_SECTOR) == {FREE_MAP_SECTOR} + mapHdr.Data()
            && Owned(hdrs, DIRECTORY_SECTOR) == {DIRECTORY_SECTOR} + dirHdr.Data()
  {
    hide DirectoryOK;
  }

  lemma FormattedDisk(free0: set<int>, mapHdr: Header, dirHdr: Header, dir: seq<Entry>,
                      d: seq<Sector>, d1: seq<Sector>, e: seq<Sector>)
    requires FormatInput(free0, mapHdr, dirHdr, dir) && |d| == |d1| == |e| == NUM_SECTORS
    requires DecodeHeader(d[FREE_MAP_SECTOR]) == mapHdr && DecodeHeader(d[DIRECTORY_SECTOR]) == dirHdr
    requires forall s :: 0 <= s < NUM_SECTORS && s !in mapHdr.Data() ==> d1[s] == d[s]
    requires forall s :: 0 <= s < NUM_SECTORS && s !in dirHdr.Data() ==> e[s] == d1[s]
    requires PersistentBitmaps.StoredFree(FileBytes(d1, mapHdr)) == free0 - mapHdr.Data() - dirHdr.Data()
    requires DecodeTable(FileBytes(e, dirHdr)) == dir
    ensures Mountable(e) && Mount(e) == FormattedVolume(free0, mapHdr, dirHdr, dir)
  {
    var v := FormattedVolume(free0, mapHdr, dirHdr, dir);
    SameSectorsSameBytes(e, d1, mapHdr);
    assert HeaderSectors(dir) == {FREE_MAP_SECTOR, DIRECTORY_SECTOR} == v.hdrs.Keys;
    MountAfter(d, e, v);
  }

  /** The files with headers in `keep` have the same bytes on both disks. */
  ghost predicate SameFiles(d: seq<Sector>, e: seq<Sector>, hdrs: map<int, Header>, keep: set<int>)
  {
    && |d| == |e| == NUM_SECTORS
    && (forall s :: s in keep && s in hdrs && hdrs[s].WellFormed() ==> FileBytes(e, hdrs[s]) == FileBytes(d, hdrs[s]))
  }

  /** Files other than the well-known two, the ones Create and Remove must not disturb. */
  ghost function UserFiles(v: Volume): set<int>
  {
    v.hdrs.Keys - {FREE_MAP_SECTOR, DIRECTORY_SECTOR}
  }

  /** Writes to the well-known files and to a free sector leave every user file alone. */
  lemma UserFilesKept(d: seq<Sector>, e: seq<Sector>, v: Volume, sector: int)
    requires Consistent(v) && |d| == |e| == NUM_SECTORS
    requires sector in v.free || sector in {FREE_MAP_SECTOR, DIRECTORY_SECTOR}
    requires forall x :: 0 <= x < NUM_SECTORS && x != sector ==>
               x in v.hdrs[DIRECTORY_SECTOR].Data() || x in v.hdrs[FREE_MAP_SECTOR].Data() || e[x] == d[x]
    ensures SameFiles(d, e, v.hdrs, UserFiles(v))
  {
    forall s | s in UserFiles(v) ensures FileBytes(e, v.hdrs[s]) == FileBytes(d, v.hdrs[s]) {
      assert Owned(v.hdrs, s) !! Owned(v.hdrs, DIRECTORY_SECTOR);
      assert Owned(v.hdrs, s) !! Owned(v.hdrs, FREE_MAP_SECTOR);
      assert sector in v.free ==> sector !in Owned(v.hdrs, s) by { OwnedAreSectors(v.hdrs, s); }
      SameSectorsSameBytes(e, d, v.hdrs[s]);
    }
  }

  /** A write through a live user file changes neither the volume nor any other file. */
  lemma WriteKeepsVolume(d: seq<Sector>, e: seq<Sector>, s: int)
    requires Mountable(d) && Consistent(Mount(d)) && s in UserFiles(Mount(d)) && |e| == NUM_SECTORS
    requires forall x :: 0 <= x < NUM_SECTORS && x !in Mount(d).hdrs[s].Data() ==> e[x] == d[x]
    ensures Mountable(e) && Mount(e) == Mount(d)
    ensures SameFiles(d, e, Mount(d).hdrs, Mount(d).hdrs.Keys - {s})
  {
    var v := Mount(d);
    forall t | t in v.hdrs ensures e[t] == d[t] {
      HeaderNotInData(v, t, s);
    }
    forall t | t in v.hdrs && t != s ensures FileBytes(e, v.hdrs[t]) == FileBytes(d, v.hdrs[t]) {
      assert Owned(v.hdrs, s) !! Owned(v.hdrs, t);
      SameSectorsSameBytes(e, d, v.hdrs[t]);
    }
    MountAfter(d, e, v);
  }

  lemma LiveEntry(v: Volume, i: int)
    requires Consistent(v) && 0 <= i < |v.dir| && v.dir[i].inUse
    ensures IsSector(v.dir[i].sector) && v.dir[i].sector in UserFiles(v) && v.hdrs[v.dir[i].sector].WellFormed()
  {
    assert v.dir[i].sector in HeaderSectors(v.dir);
  }

  lemma LiveFileIsMarked(v: Volume, s: int)
    requires Consistent(v) && s in v.hdrs
    ensures v.hdrs[s].WellFormed() && Owned(v.hdrs, s) !! v.free
    ensures var h := v.hdrs[s]; forall k :: 0 <= k < h.numSectors ==> h.dataSectors[k] !in v.free
  {
    var h := v.hdrs[s];
    OwnedAreSectors(v.hdrs, s);
    assert forall x :: x in Owned(v.hdrs, s) ==> !Unowned(v.hdrs, x);
    forall k | 0 <= k < h.numSectors ensures h.dataSectors[k] !in v.free {
      assert h.dataSectors[..h.numSectors][k] in h.Data();
    }
  }

  lemma SlotRemoved(v: Volume, t: seq<Entry>, name: seq<byte>, i: int)
    requires Consistent(v) && 0 <= i < |v.dir| && Names(v.dir[i], name) && |t| == |v.dir|
    requires exists j :: 0 <= j < |t| && Names(v.dir[j], name) && t == v.dir[j := v.dir[j].(inUse := false)]
    ensures t == v.dir[i := v.dir[i].(inUse := false)]
  {
    var j :| 0 <= j < |t| && Names(v.dir[j], name) && t == v.dir[j := v.dir[j].(inUse := false)];
    OneSlotPerName(v.dir, name, i, j);
  }

  lemma DisksAgreeOnRemove(v: Volume, w: Volume, d: seq<Sector>, d1: seq<Sector>, e: seq<Sector>)
    requires Mountable(d) && v == Mount(d) && Consistent(v) && Consistent(w)
    requires w.hdrs.Keys <= v.hdrs.Keys && forall t :: t in w.hdrs ==> w.hdrs[t] == v.hdrs[t]
    requires |d1| == |e| == NUM_SECTORS
    requires forall s :: 0 <= s < NUM_SECTORS && s !in v.hdrs[FREE_MAP_SECTOR].Data() ==> d1[s] == d[s]
    requires forall s :: 0 <= s < NUM_SECTORS && s !in v.hdrs[DIRECTORY_SECTOR].Data() ==> e[s] == d1[s]
    ensures forall t :: t in w.hdrs ==> IsSector(t) && DecodeHeader(e[t]) == w.hdrs[t]
    ensures e[FREE_MAP_SECTOR] == d[FREE_MAP_SECTOR] && e[DIRECTORY_SECTOR] == d[DIRECTORY_SECTOR]
    ensures FileBytes(e, v.hdrs[FREE_MAP_SECTOR]) == FileBytes(d1, v.hdrs[FREE_MAP_SECTOR])
  {
    WellKnownApart(v);
    forall t | t in v.hdrs ensures IsSector(t) && e[t] == d[t] {
      HeaderNotInData(v, t, DIRECTORY_SECTOR);
      HeaderNotInData(v, t, FREE_MAP_SECTOR);
    }
    SameSectorsSameBytes(e, d1, v.hdrs[FREE_MAP_SECTOR]);
  }

  class FileSystem {
    const disk: SectorDisk
    const freeMapFile: OpenFile
    const directoryFile: OpenFile

    /** The two files stay open: their cached headers are the ones on disk. */
    ghost predicate Valid()
      reads this, disk, freeMapFile, freeMapFile.disk, freeMapFile.hdr, directoryFile, directoryFile.disk, directoryFile.hdr
    {
      && Mountable(disk.data) && Consistent(Mount(disk.data))
      && freeMapFile.disk == disk && directoryFile.disk == disk
      && freeMapFile.hdr.View() == DecodeHeader(disk.data[FREE_MAP_SECTOR])
      && directoryFile.hdr.View() == DecodeHeader(disk.data[DIRECTORY_SECTOR])
    }

    /** Boot on a disk that an earlier session left behind. */
    constructor Boot(disk: SectorDisk)
      requires Mountable(disk.data) && Consistent(Mount(disk.data))
      ensures Valid() && this.disk == disk
    {
      this.disk := disk;
      freeMapFile := new OpenFile(disk, FREE_MAP_SECTOR);
      directoryFile := new OpenFile(disk, DIRECTORY_SECTOR);
    }

    static method MarkWellKnown() returns (freeMap: Bitmap, ghost free0: set<int>)
      ensures fresh(freeMap) && fresh(freeMap.words) && freeMap.Valid() && freeMap.numBits == NUM_SECTORS
      ensures freeMap.free == free0
      ensures (forall x :: x in free0 ==> 2 <= x < NUM_SECTORS) && forall x :: 2 <= x < NUM_SECTORS ==> x in free0
    {
      freeMap := new Bitmap(NUM_SECTORS);
      freeMap.Mark(FREE_MAP_SECTOR);
      freeMap.Mark(DIRECTORY_SECTOR);
      free0 := freeMap.free;
    }

    /** Format's first half, in memory: sectors for the two headers and the two files are taken. */
    static method AllocateWellKnown() returns (freeMap: Bitmap, mapHdr: FileHeader, dirHdr: FileHeader, ghost free0: set<int>)
      ensures fresh(freeMap) && freeMap.Valid() && freeMap.numBits == NUM_SECTORS
      ensures fresh(mapHdr) && mapHdr.Valid() && mapHdr.Storable() && mapHdr != dirHdr
      ensures fresh(dirHdr) && dirHdr.Valid() && dirHdr.Storable()
      ensures (forall x :: x in free0 ==> 2 <= x < NUM_SECTORS) && forall x :: 2 <= x < NUM_SECTORS ==> x in free0
      ensures mapHdr.View().WellFormed() && mapHdr.numBytes == FREE_MAP_FILE_SIZE && mapHdr.View().Data() <= free0
      ensures dirHdr.View().WellFormed() && dirHdr.numBytes == DIRECTORY_FILE_SIZE
      ensures dirHdr.View().Data() <= free0 - mapHdr.View().Data()
      ensures freeMap.free == free0 - mapHdr.View().Data() - dirHdr.View().Data()
    {
      hide Header.WellFormed, FileHeader.Storable, Elems;
      freeMap, free0 := MarkWellKnown();
      mapHdr := new FileHeader();
      dirHdr := new FileHeader();
      EnoughForFormat(free0);
      assert DivRoundUp(FREE_MAP_FILE_SIZE, SECTOR_SIZE) == 1 && DivRoundUp(DIRECTORY_FILE_SIZE, SECTOR_SIZE) == 2;
      var ok := mapHdr.Allocate(freeMap, FREE_MAP_FILE_SIZE);
      assert ok;                             // the code's ASSERT
      AllocationLeaves(free0, mapHdr.View());
      ok := dirHdr.Allocate(freeMap, DIRECTORY_FILE_SIZE);
      assert ok;                             // the code's ASSERT
    }

    /** Format's second half: headers first, so that the files can be opened, then their contents. */
    static method WriteWellKnown(disk: SectorDisk, freeMap: Bitmap, directory: Directory, mapHdr: FileHeader,
                                 dirHdr: FileHeader, ghost free0: set<int>)
      returns (mapFile: OpenFile, dirFile: OpenFile)
      requires disk.Valid() && freeMap.Valid() && freeMap.numBits == NUM_SECTORS && directory.Valid()
      requires mapHdr.Valid() && mapHdr.Storable() && dirHdr.Valid() && dirHdr.Storable()
      requires FormatInput(free0, mapHdr.View(), dirHdr.View(), directory.table)
      requires freeMap.free == free0 - mapHdr.View().Data() - dirHdr.View().Data()
      modifies disk
      ensures mapFile.disk == disk && dirFile.disk == disk && fresh(mapFile.hdr) && fresh(dirFile.hdr)
      ensures Mountable(disk.data)
      ensures Mount(disk.data) == FormattedVolume(free0, mapHdr.View(), dirHdr.View(), directory.table)
      ensures mapFile.hdr.View() == DecodeHeader(disk.data[FREE_MAP_SECTOR])
      ensures dirFile.hdr.View() == DecodeHeader(disk.data[DIRECTORY_SECTOR])
    {
      hide Mount, Mountable, Overlay, EncodeTable, DecodeTable, PersistentBitmaps.EncodeWords;
      mapHdr.WriteBack(disk, FREE_MAP_SECTOR);
      dirHdr.WriteBack(disk, DIRECTORY_SECTOR);
      ghost var d := disk.data;
      mapFile := new OpenFile(disk, FREE_MAP_SECTOR);
      dirFile := new OpenFile(disk, DIRECTORY_SECTOR);
      PersistentBitmaps.WriteBack(freeMap, mapFile);
      ghost var d1 := disk.data;
      directory.WriteBack(dirFile);
      FormattedDisk(free0, mapHdr.View(), dirHdr.View(), directory.table, d, d1, disk.data);
    }

    /** Format: whatever the disk held, it now holds an empty file system. */
    constructor Format(disk: SectorDisk)
      requires disk.Valid()
      modifies disk
      ensures Valid() && this.disk == disk
      ensures forall i :: 0 <= i < |Mount(disk.data).dir| ==> !Mount(disk.data).dir[i].inUse
    {
      hide Consistent, Mount, Mountable;
      var freeMap, mapHdr, dirHdr, free0 := AllocateWellKnown();
      var directory := new Directory(NUM_DIR_ENTRIES);
      FormattedIsConsistent(free0, mapHdr.View(), dirHdr.View(), directory.table);
      var mapFile, dirFile := WriteWellKnown(disk, freeMap, directory, mapHdr, dirHdr, free0);
      this.disk, freeMapFile, directoryFile := disk, mapFile, dirFile;
    }

    method LoadDirectory() returns (directory: Directory)
      requires Valid()
      ensures fresh(directory) && directory.Valid() && |directory.table| == NUM_DIR_ENTRIES
      ensures directory.table == Mount(disk.data).dir
    {
      directory := new Directory(NUM_DIR_ENTRIES);
      directory.FetchFrom(directoryFile);
    }

    method LoadFreeMap() returns (freeMap: Bitmap)
      requires Valid()
      ensures fresh(freeMap) && fresh(freeMap.words) && freeMap.Valid() && freeMap.numBits == NUM_SECTORS
      ensures freeMap.free == Mount(disk.data).free
    {
      hide Consistent;
      freeMap := new Bitmap(NUM_SECTORS);
      PersistentBitmaps.FetchFrom(freeMap, freeMapFile);
    }

    method StoreDirectory(directory: Directory)
      requires directory.Valid() && directoryFile.Valid() && directoryFile.hdr.numBytes == ENTRY_SIZE * |directory.table|
      modifies directoryFile.disk
      ensures directoryFile.Valid() && DecodeTable(directoryFile.Contents()) == directory.table
      ensures forall s :: 0 <= s < NUM_SECTORS && s !in directoryFile.hdr.View().Data() ==>
                directoryFile.disk.data[s] == old(directoryFile.disk.data[s])
    {
      directory.WriteBack(directoryFile);
    }

    method StoreFreeMap(freeMap: Bitmap)
      requires freeMap.Valid() && freeMapFile.Valid() && PersistentBitmaps.Fits(freeMap, freeMapFile)
      modifies freeMapFile.disk
      ensures freeMap.Valid() && freeMapFile.Valid() && PersistentBitmaps.StoredFree(freeMapFile.Contents()) == freeMap.free
      ensures forall s :: 0 <= s < NUM_SECTORS && s !in freeMapFile.hdr.View().Data() ==>
                freeMapFile.disk.data[s] == old(freeMapFile.disk.data[s])
    {
      PersistentBitmaps.WriteBack(freeMap, freeMapFile);
    }

    /** Create's last steps: the header, the directory and the map go to disk. */
    method CommitCreate(hdr: FileHeader, sector: int, directory: Directory, freeMap: Bitmap, name: seq<byte>, ghost i: int)
      requires Valid() && directory.Valid() && freeMap.Valid() && freeMap.numBits == NUM_SECTORS
      requires hdr.Valid() && hdr.Storable() && |directory.table| == NUM_DIR_ENTRIES
      requires !Listed(Mount(disk.data).dir, name)
      requires CreatedAs(Mount(disk.data),
                         Volume(freeMap.free, directory.table, Mount(disk.data).hdrs[sector := hdr.View()]),
                         name, hdr.numBytes, i, sector, hdr.View())
      modifies disk
      ensures Valid()
      ensures Mount(disk.data) == Volume(freeMap.free, directory.table, old(Mount(disk.data)).hdrs[sector := hdr.View()])
      ensures SameFiles(old(disk.data), disk.data, old(Mount(disk.data)).hdrs, UserFiles(old(Mount(disk.data))))
    {
      hide Consistent, SameFiles, Mount, DecodeTable, PersistentBitmaps.StoredFree, DecodeHeader;
      ghost var d, v := disk.data, Mount(disk.data);
      ghost var w := Volume(freeMap.free, directory.table, v.hdrs[sector := hdr.View()]);
      FreeIsSector(v, sector);
      hdr.WriteBack(disk, sector);
      ghost var d1 := disk.data;
      StoreDirectory(directory);
      ghost var d2 := disk.data;
      StoreFreeMap(freeMap);
      CreateCommitted(v, w, d, d1, d2, disk.data, name, hdr.numBytes, i, sector, hdr.View());
    }

    /** Create's middle part, on the copies in memory: header sector, directory slot, data sectors. */
    static method Plan(directory: Directory, freeMap: Bitmap, name: seq<byte>, initialSize: int)
      returns (ok: bool, sector: int, hdr: FileHeader, ghost i: int)
      requires directory.Valid() && freeMap.Valid() && freeMap.numBits == NUM_SECTORS
      requires 0 <= initialSize <= MAX_FILE_SIZE && !Listed(directory.table, name)
      modifies directory, freeMap, freeMap.words
      ensures directory.Valid() && |directory.table| == |old(directory.table)| && freeMap.Valid()
      ensures ok <==>
                && (exists k :: 0 <= k < |old(directory.table)| && !old(directory.table)[k].inUse)
                && |old(freeMap.free)| >= 1 + DivRoundUp(initialSize, SECTOR_SIZE)
      ensures ok ==> fresh(hdr) && hdr.Valid() && hdr.Storable() && hdr.numBytes == initialSize
      ensures ok ==> forall hdrs :: CreatedAs(Volume(old(freeMap.free), old(directory.table), hdrs),
                                              Volume(freeMap.free, directory.table, hdrs[sector := hdr.View()]),
                                              name, initialSize, i, sector, hdr.View())
    {
      ok, i := false, 0;
      hdr := new FileHeader();
      sector := freeMap.FindAndSet();
      if sector == -1 {
        return;
      }
      var added := directory.Add(name, sector);
      if !added {
        return;
      }
      i :| 0 <= i < |directory.table| && !old(directory.table)[i].inUse && Names(directory.table[i], name) &&
           directory.table[i].sector == sector && directory.table == old(directory.table)[i := directory.table[i]];
      ok := hdr.Allocate(freeMap, initialSize);
    }

    /** Creates the file when its name is new, a slot is free and there is room for header and data;
        otherwise the disk is left exactly as it was. */
    method Create(name: seq<byte>, initialSize: int) returns (success: bool)
      requires Valid() && 0 <= initialSize <= MAX_FILE_SIZE
      modifies disk
      ensures Valid()
      ensures var v := old(Mount(disk.data));
              success <==>
                && !Listed(v.dir, name) && (exists i :: 0 <= i < |v.dir| && !v.dir[i].inUse)
                && |v.free| >= 1 + DivRoundUp(initialSize, SECTOR_SIZE)
      ensures !success ==> disk.data == old(disk.data)
      ensures success ==> Created(old(Mount(disk.data)), Mount(disk.data), name, initialSize)
      ensures success ==> SameFiles(old(disk.data), disk.data, old(Mount(disk.data)).hdrs, UserFiles(old(Mount(disk.data))))
    {
      hide Consistent, Mount, Mountable, CreatedAs, SameFiles;
      ghost var v := Mount(disk.data);
      var directory := LoadDirectory();
      EntriesPointToSectors(v);
      var found := directory.Find(name);
      if found != -1 {
        return false;
      }
      var freeMap := LoadFreeMap();
      var ok, sector, hdr, i := Plan(directory, freeMap, name, initialSize);
      if !ok {
        return false;
      }
      assert v == Volume(v.free, v.dir, v.hdrs);
      assert CreatedAs(Volume(v.free, v.dir, v.hdrs), Volume(freeMap.free, directory.table, v.hdrs[sector := hdr.View()]),
                       name, initialSize, i, sector, hdr.View());
      CommitCreate(hdr, sector, directory, freeMap, name, i);
      assert CreatedAs(v, Mount(disk.data), name, initialSize, i, sector, hdr.View());
      success := true;
    }

    /** Opens the live file of that name, with its header as it is on disk; null when there is none. */
    method Open(name: seq<byte>) returns (file: OpenFile?)
      requires Valid()
      ensures file == null <==> !Listed(Mount(disk.data).dir, name)
      ensures file != null ==> fresh(file) && file.disk == disk && file.Valid() && exists i ::
                && 0 <= i < |Mount(disk.data).dir| && Names(Mount(disk.data).dir[i], name)
                && Mount(disk.data).dir[i].sector in UserFiles(Mount(disk.data))
                && file.hdr.View() == Mount(disk.data).hdrs[Mount(disk.data).dir[i].sector]
    {
      hide Consistent;
      ghost var v := Mount(disk.data);
      var directory := LoadDirectory();
      EntriesPointToSectors(v);
      var sector := directory.Find(name);
      file := null;
      if sector >= 0 {
        file := new OpenFile(disk, sector);
        ghost var i :| 0 <= i < |v.dir| && Names(v.dir[i], name) && v.dir[i].sector == sector;
        LiveEntry(v, i);
      }
    }

    /** Remove's last steps: the map and the directory go to disk. */
    method CommitRemove(directory: Directory, freeMap: Bitmap, name: seq<byte>, ghost i: int)
      requires Valid() && directory.Valid() && freeMap.Valid() && freeMap.numBits == NUM_SECTORS
      requires |directory.table| == NUM_DIR_ENTRIES && 0 <= i < |Mount(disk.data).dir|
      requires RemovedAs(Mount(disk.data),
                         Volume(freeMap.free, directory.table, Mount(disk.data).hdrs - {Mount(disk.data).dir[i].sector}),
                         name, i)
      modifies disk
      ensures Valid()
      ensures RemovedAs(old(Mount(disk.data)), Mount(disk.data), name, i)
      ensures SameFiles(old(disk.data), disk.data, old(Mount(disk.data)).hdrs, UserFiles(old(Mount(disk.data))))
    {
      hide Consistent, SameFiles, Mount, DecodeTable, PersistentBitmaps.StoredFree, DecodeHeader;
      ghost var d, v := disk.data, Mount(disk.data);
      ghost var w := Volume(freeMap.free, directory.table, v.hdrs - {v.dir[i].sector});
      StoreFreeMap(freeMap);
      ghost var d1 := disk.data;
      StoreDirectory(directory);
      RemoveCommitted(v, w, d, d1, disk.data, name, i);
    }

    /** The in-memory map with the sectors of the file at `sector` cleared: data first, then the header. */
    method FreeSectors(freeMap: Bitmap, sector: int)
      requires Valid() && freeMap.Valid() && freeMap.numBits == NUM_SECTORS && freeMap.free == Mount(disk.data).free
      requires sector in UserFiles(Mount(disk.data))
      modifies freeMap, freeMap.words
      ensures freeMap.Valid() && Mount(disk.data).hdrs[sector].WellFormed()
      ensures freeMap.free == Mount(disk.data).free + Owned(Mount(disk.data).hdrs, sector)
    {
      hide Consistent;
      LiveFileIsMarked(Mount(disk.data), sector);
      var fileHdr := new FileHeader();
      fileHdr.FetchFrom(disk, sector);
      fileHdr.Deallocate(freeMap);
      freeMap.Clear(sector);
    }

    /** Removes the file of that name and frees its sectors; a name that is not listed changes nothing. */
    method Remove(name: seq<byte>) returns (ok: bool)
      requires Valid()
      modifies disk
      ensures Valid()
      ensures ok <==> Listed(old(Mount(disk.data)).dir, name)
      ensures !ok ==> disk.data == old(disk.data)
      ensures ok ==> Removed(old(Mount(disk.data)), Mount(disk.data), name)
      ensures ok ==> SameFiles(old(disk.data), disk.data, old(Mount(disk.data)).hdrs, UserFiles(old(Mount(disk.data))))
    {
      hide Consistent, SameFiles, Mountable, Mount;
      ghost var v := Mount(disk.data);
      var directory := LoadDirectory();
      EntriesPointToSectors(v);
      var sector := directory.Find(name);
      if sector == -1 {
        return false;
      }
      ghost var i :| 0 <= i < |v.dir| && Names(v.dir[i], name) && v.dir[i].sector == sector;
      RemoveListed(directory, sector, name, i);
      ok := true;
    }

    /** The rest of Remove, for a name that is in the directory. */
    method RemoveListed(directory: Directory, sector: int, name: seq<byte>, ghost i: int)
      requires Valid() && directory.Valid() && directory.table == Mount(disk.data).dir
      requires |directory.table| == NUM_DIR_ENTRIES && 0 <= i < |directory.table|
      requires Names(directory.table[i], name) && directory.table[i].sector == sector
      modifies disk, directory
      ensures Valid() && RemovedAs(old(Mount(disk.data)), Mount(disk.data), name, i)
      ensures SameFiles(old(disk.data), disk.data, old(Mount(disk.data)).hdrs, UserFiles(old(Mount(disk.data))))
    {
      hide Consistent, SameFiles, Mountable, Mount;
      ghost var v := Mount(disk.data);
      LiveEntry(v, i);
      var freeMap := LoadFreeMap();
      FreeSectors(freeMap, sector);
      var _ := directory.Remove(name);
      SlotRemoved(v, directory.table, name, i);
      CommitRemove(directory, freeMap, name, i);
    }
  }
}
