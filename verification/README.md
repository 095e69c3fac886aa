# Nachos, modelled and verified in Dafny

Nachos is a teaching operating system: a simulated MIPS machine with devices and simulated time, and a kernel with
threads, synchronization, a file system, address spaces, a process table and a post office on top. This project models
the parts of it that are hardest to get right and proves what they promise, for every input, every run and every
reachable state. `dafny verify dfyconfig.toml` checks the whole project.

| files | what they model |
|---|---|
| `Words`, `Bytes`, `Sequences` | 32-bit words by their bits, the byte layouts that are copied to and from disk and wire, and sequences in general |
| `Bitmap`, `PersistentBitmap`, `FileHeader`, `OpenFile`, `Directory`, `FileSystem` | the on-disk file system, down to the bytes of the sectors |
| `Machine`, `AddrSpace`, `Multiply` | address translation, loads and stores, the unaligned instruction pairs, frame allocation, the multiplier |
| `List`, `Buckets`, `HashTable` | linked lists, sorted lists, tables of separate lists, the self-resizing hash table on them, and the iterators |
| `Interrupts`, `DiskTiming` | pending interrupts, tick accounting, disk latency and the track buffer |
| `Threads`, `Locks`, `SynchDisk`, `SynchList` | the uniprocessor concurrency stack |
| `ProcessTable`, `DanglingBlock` | Exec, Join and Exit over the semaphores of the process control blocks |
| `Mail`, `Sender`, `PostOffice` | messages from the threads of many machines over a lossy, in-order link |
| `Runs` | runs of a step machine |

What updates fields in place is a class, and its methods are proved against specification functions of the old state.
What is a protocol between threads is a step machine on values: a step ends where interrupts are restored or where the
thread gives up the processor, `Init` and a step predicate define the runs, and an invariant is proved for every state of
every run. Semaphores are atomic in the machines above the thread level; `Threads.SemaphoreStep` is the reason. An
assertion of the code is a field `asserts` of the state that becomes false when the assertion fails; each machine proves
that it stays true.

Where the code and what one would expect of it differ, the code is followed:

- The track buffer answers a read as soon as the slot of the sector has begun to pass, not when it has passed, because the
  clock is first rounded up to a sector boundary. `DiskTiming.HitBeforePassed` is a request for which this shows, and
  `DiskTiming.HitMeansPassedIff` says exactly when it does not.
- A process control block can be removed while a child has not done with it: its V on `multex` may be to come, and the
  ExitWait after it. `DanglingBlocks.DeletedWhileInUse` and `DanglingBlocks.DeletedBeforeExitWait` are such runs, one for
  each, in a table of any size from three on. The condition that a caller can check is the size of the table:
  `DanglingBlocks.DanglesIffThreeSlots` says that a run can come to such a use exactly with three slots or more.
  `ProcessTables.CanDangleIff`, in which states the next step is one, is the way there, and
  `ProcessTables.SafeWhileOnlyMainHasChildren` says that none is while only the main process has called Exec. Every result
  of `ProcessTables` is about runs up to the first such use: the machine stops there. `ProcessTables.RemovedAfterChildren`
  says how far every child has come at the removal, and `ProcessTables.ChildrenLeftDecIff` that it has left DecNumWait
  exactly if `multex` is free.
- `NetworkOutput` tests a flag `sendBusy` that is never set. `Senders.BusyIsNeverSeen` says that the test passes in every
  run of the device, and `Senders.OverlapUnnoticed` is one in which two sends overlap. That sends do not overlap on a
  machine is due to the lock of the post office: `Senders.OneAtATime`.

## Model

| member | source | states |
|---|---|---|
| `Bytes.IntRoundTrip` | code/filesys/filehdr.cc:83-100 | an int written to disk as four bytes and read back is the same int, negative ones included |
| `Bytes.ChunksFlatten` | code/filesys/directory.cc:63-79 | a table of fixed-width records, written as one block and cut again, is the same table |
| `Words.OrBit` | code/lib/bitmap.cc:55-63 | a bit of a bitwise or is the or of the bits |
| `Words.AndBit` | code/lib/bitmap.cc:72-80 | a bit of a bitwise and is the and of the bits |
| `Words.NotBit` | code/lib/bitmap.cc:72-80 | complement flips every one of the 32 bits |
| `Words.TestOneBit` | code/lib/bitmap.cc:89-99 | a word masked by one bit is non-zero exactly if the bit is set |
| `Bitmaps.SetFlag` | code/lib/bitmap.cc:55-63 | or-ing a mask into one packed word sets exactly one flag of the whole map |
| `Bitmaps.ClearFlag` | code/lib/bitmap.cc:72-80 | and-ing a complemented mask clears exactly one flag of the whole map |
| `Bitmaps.Bitmap.FreeIsPacked` | code/lib/bitmap.cc:21-36 | the abstract set of clear positions is what the packed words say |
| `Bitmaps.Bitmap.constructor` | code/lib/bitmap.cc:21-36 | every position starts clear |
| `Bitmaps.Bitmap.Mark` | code/lib/bitmap.cc:55-63 | takes exactly one position out of the clear ones |
| `Bitmaps.Bitmap.Clear` | code/lib/bitmap.cc:72-80 | adds exactly one position to the clear ones |
| `Bitmaps.Bitmap.Test` | code/lib/bitmap.cc:89-99 | answers whether the position is set |
| `Bitmaps.Bitmap.FindAndSet` | code/lib/bitmap.cc:110-120 | hands out the lowest clear position, and -1 with nothing changed exactly if there is none |
| `Bitmaps.Bitmap.NumClear` | code/lib/bitmap.cc:128-139 | counts the clear positions |
| `PersistentBitmaps.WordsRoundTrip` | code/filesys/pbitmap.cc:62-79 | packed words survive being written to a file and read back |
| `PersistentBitmaps.FetchFrom` | code/filesys/pbitmap.cc:62-66 | the words become the old ones overlaid by the bytes of the file, as far as either goes; when the file has the size of the map, the clear positions become those that the file describes |
| `PersistentBitmaps.WriteBack` | code/filesys/pbitmap.cc:75-79 | the file is overlaid by the words of the map; when it has their size it then describes exactly the clear positions; no other sector of the disk changes |
| `FileHeaders.HeaderRoundTrip` | code/filesys/filehdr.cc:83-100 | a header survives its sector |
| `FileHeaders.AllocatedIsWellFormed` | code/filesys/filehdr.cc:43-60 | a header filled from the free sectors has as many distinct data sectors as its length needs |
| `FileHeaders.FileHeader.TakeSectors` | code/filesys/filehdr.cc:43-60 | takes distinct free sectors, one for each entry, and the assertion on each holds |
| `FileHeaders.FileHeader.Allocate` | code/filesys/filehdr.cc:43-60 | succeeds exactly if there are enough free sectors; then takes exactly the sectors of the header, otherwise changes nothing |
| `FileHeaders.FileHeader.Deallocate` | code/filesys/filehdr.cc:67-74 | gives back exactly the data sectors |
| `FileHeaders.FileHeader.FetchFrom` | code/filesys/filehdr.cc:83-87 | the header is the one that the sector encodes |
| `FileHeaders.FileHeader.WriteBack` | code/filesys/filehdr.cc:96-100 | the sector encodes the header, and no other sector changes |
| `FileHeaders.SectorHasByte` | code/filesys/filehdr.cc:112-116 | the sector that ByteToSector computes is a data sector of the file and, on every disk, holds the byte of the file at that offset |
| `OpenFiles.PatchedIsSpliced` | code/filesys/openfile.cc:144-183 | writing back whole sectors whose ends were read first changes the file exactly as overwriting one range of a flat byte sequence |
| `OpenFiles.SameSectorsSameBytes` | code/filesys/openfile.cc:115-142 | a file's bytes depend on its own sectors only |
| `OpenFiles.WriteOneSector` | code/filesys/openfile.cc:177-180 | writing a data sector of a file changes that sector of its image and no other |
| `OpenFiles.OpenFile.constructor` | code/filesys/openfile.cc:28-34 | an open file has the header found in its sector and starts at position 0 |
| `OpenFiles.OpenFile.ReadAt` | code/filesys/openfile.cc:115-142 | for every position and count, returns the clipped length and the slice of the flat byte sequence there, and changes neither the rest of the buffer nor the disk |
| `OpenFiles.OpenFile.ReadSectors` | code/filesys/openfile.cc:132-136 | the buffer holds the sectors of the range, in order |
| `OpenFiles.OpenFile.ReadEnds` | code/filesys/openfile.cc:164-172 | what the write will not overwrite of the first and last sector is in the buffer |
| `OpenFiles.OpenFile.FillBuffer` | code/filesys/openfile.cc:158-175 | the buffer holds the old bytes of its sectors with the new ones in place |
| `OpenFiles.OpenFile.WriteSectors` | code/filesys/openfile.cc:177-180 | exactly the sectors of the range get the bytes of the buffer |
| `OpenFiles.OpenFile.WriteAt` | code/filesys/openfile.cc:144-183 | for every position and count, returns the clipped length, overwrites exactly that range of the flat byte sequence, and writes no sector that is not a data sector of the file |
| `OpenFiles.OpenFile.Read` | code/filesys/openfile.cc:73-79 | reads at the position and advances it by what was read |
| `OpenFiles.OpenFile.Write` | code/filesys/openfile.cc:81-87 | writes at the position, advances it by what was written, and writes no sector that is not a data sector of the file |
| `OpenFiles.WriteThenRead` | code/filesys/openfile.cc:54-87 | what is written at a position sought is what is read after seeking there again, for every position and length, clipped at the end of the file |
| `Directories.SameFromIffKey` | code/filesys/directory.cc:89-97 | two names compare equal exactly if they agree in the characters up to the first nul, at most nine |
| `Directories.KeyOfCopyFrom` | code/filesys/directory.cc:128-146 | the name stored by a bounded copy compares equal to the name given |
| `Directories.TableRoundTrip` | code/filesys/directory.cc:62-79 | the directory survives its file |
| `Directories.Directory.FetchFrom` | code/filesys/directory.cc:62-66 | the table is read from the old one overlaid by the bytes of the file; when the file has the size of the table, it is the one that the file encodes |
| `Directories.Directory.WriteBack` | code/filesys/directory.cc:75-79 | the file is overlaid by the bytes of the table; when it has their size it encodes the table; no sector outside the file changes |
| `Directories.Directory.FindIndex` | code/filesys/directory.cc:89-97 | the first entry in use with the name, and -1 exactly if there is none |
| `Directories.Directory.Find` | code/filesys/directory.cc:107-115 | the header sector of the entry with the name, and -1 exactly if there is none |
| `Directories.Directory.Add` | code/filesys/directory.cc:128-146 | succeeds exactly if the name is absent and an entry is free; then the first free entry, and no other, has the name and sector; otherwise nothing changes |
| `Directories.Directory.Remove` | code/filesys/directory.cc:152-161 | succeeds exactly if the name is present; then exactly that entry is free |
| `FileSystems.CreatePreservesConsistency` | code/filesys/filesys.cc:178-220 | after Create the free map still has set exactly the sectors of the two system files and of the files in use, all distinct, and names still differ in their first nine characters |
| `FileSystems.RemovePreservesConsistency` | code/filesys/filesys.cc:262-292 | the same after Remove |
| `FileSystems.CreateThenRemove` | code/filesys/filesys.cc:178-292 | Remove of a name just created gives back exactly the free map and the files from before |
| `FileSystems.UndoCreate` | code/filesys/filesys.cc:178-292 | the same, for whichever entry the name was put into |
| `FileSystems.StepPreservesConsistency` | code/filesys/filesys.cc:178-292 | any Create or Remove keeps the volume consistent |
| `FileSystems.RunsStayConsistent` | code/filesys/filesys.cc:81-292 | so does every sequence of them, from a consistent volume |
| `FileSystems.FormattedIsConsistent` | code/filesys/filesys.cc:81-139 | what formatting writes is a consistent, empty volume |
| `FileSystems.FormattedDisk` | code/filesys/filesys.cc:81-139 | the bytes that formatting writes are read back as that volume, though free map and directory are files of it themselves |
| `FileSystems.DisksAgree` | code/filesys/filesys.cc:178-220 | the sectors that Create writes are read back as the volume with the file added |
| `FileSystems.DisksAgreeOnRemove` | code/filesys/filesys.cc:262-292 | the sectors that Remove writes are read back as the volume without the file |
| `FileSystems.CreateCommitted` | code/filesys/filesys.cc:207-213 | the three writes of Create leave a consistent disk with the file added, and all user files with their bytes |
| `FileSystems.RemoveCommitted` | code/filesys/filesys.cc:284-287 | so do the two writes of Remove, with the file gone |
| `FileSystems.UserFilesKept` | code/filesys/filesys.cc:178-292 | writing the system files and one fresh header leaves every other file's bytes as they were |
| `FileSystems.WriteKeepsVolume` | code/filesys/openfile.cc:144-183 | writing to the data sectors of a user file changes neither free map, directory nor any header |
| `FileSystems.FileSystem.Boot` | code/filesys/filesys.cc:140-147 | a consistent disk is taken over as it is |
| `FileSystems.FileSystem.Format` | code/filesys/filesys.cc:81-139 | any disk becomes a consistent one with an empty directory |
| `FileSystems.FileSystem.AllocateWellKnown` | code/filesys/filesys.cc:86-102 | the two system files get disjoint sectors from a new free map, and their allocations succeed |
| `FileSystems.FileSystem.WriteWellKnown` | code/filesys/filesys.cc:104-128 | the order of header, free-map and directory writes leaves a disk that can be read back as formatted |
| `FileSystems.FileSystem.Create` | code/filesys/filesys.cc:178-220 | succeeds exactly if the name is absent, an entry is free and 1 + ceil(size / 128) sectors are free; on failure the disk is unchanged; on success the volume has the new file, and all other files their bytes |
| `FileSystems.FileSystem.Plan` | code/filesys/filesys.cc:195-206 | the three ways to fail, and what is taken and entered otherwise |
| `FileSystems.FileSystem.CommitCreate` | code/filesys/filesys.cc:207-213 | writing header, directory and free map makes the plan the state of the disk |
| `FileSystems.FileSystem.Open` | code/filesys/filesys.cc:232-246 | null exactly if the name is absent; otherwise the file whose header the entry names |
| `FileSystems.FileSystem.Remove` | code/filesys/filesys.cc:262-292 | succeeds exactly if the name is present; on failure the disk is unchanged; on success exactly that file is gone, its sectors are free, and all other files keep their bytes |
| `FileSystems.FileSystem.FreeSectors` | code/filesys/filesys.cc:277-283 | exactly the data sectors and the header sector are given back |
| `FileSystems.FileSystem.CommitRemove` | code/filesys/filesys.cc:284-287 | writing free map and directory makes the removal the state of the disk |
| `Multiply.AddPair` | code/machine/mipssim.cc:771-828 | adding hi:lo pairs with a carry taken from a comparison is addition modulo 2^64 |
| `Multiply.ShiftPair` | code/machine/mipssim.cc:771-828 | shifting a pair with the bit carried over doubles it modulo 2^64 |
| `Multiply.NegatePair` | code/machine/mipssim.cc:771-828 | complementing both words and adding one with carry is negation modulo 2^64 |
| `Multiply.MultiplyUnsigned` | code/machine/mipssim.cc:771-828 | the shift-and-add loop, with arithmetic right shifts of a negative operand and the early exit, computes the unsigned product |
| `Multiply.MagnitudeAndSign` | code/machine/mipssim.cc:771-828 | multiplying magnitudes and negating is the signed product, for the most negative operand too |
| `Multiply.Mult` | code/machine/mipssim.cc:771-828 | for all 32-bit operands, signed or unsigned, hi:lo is the exact 64-bit product |
| `Machines.MergeLeftBytes` | code/machine/mipssim.cc:312-362 | which bytes of the register LWL replaces, for each alignment |
| `Machines.MergeRightBytes` | code/machine/mipssim.cc:364-418 | which bytes of the register LWR replaces, for each alignment |
| `Machines.StoreLeftBytes` | code/machine/mipssim.cc:552-609 | which bytes of the memory word SWL replaces, for each alignment |
| `Machines.StoreRightBytes` | code/machine/mipssim.cc:611-668 | which bytes of the memory word SWR replaces, for each alignment |
| `Machines.AccessStaysInFrame` | code/machine/translate.cc:184-251 | an access that passes the checks stays inside its frame and inside main memory |
| `Machines.CellsSplit` | code/machine/mipssim.cc:312-418 | the bytes of a word at any address are the top of one aligned word and the bottom of the next, which never overlap, wherever their frames are |
| `Machines.LoadedWord` | code/machine/mipssim.cc:312-418 | the two merges together are the whole word |
| `Machines.StoredWord` | code/machine/mipssim.cc:552-668 | the two partial stores together write the whole word and nothing else |
| `Machines.Machine.DelayedLoad` | code/machine/mipssim.cc:711-718 | the pending load lands, the next one is pending, and register 0 stays 0 |
| `Machines.Machine.RaiseException` | code/machine/machine.cc:100-110 | a trap lets the pending load land first, and records the bad address and which exception it was |
| `Machines.Machine.Translate` | code/machine/translate.cc:184-251 | which exception each access raises, in order of the checks; otherwise the physical address inside memory, with use and dirty bits of that page set and nothing else changed |
| `Machines.Machine.ReadMem` | code/machine/translate.cc:85-120 | the bytes at the physical address, a single one sign-extended; on a failed check exactly the exception of that check is raised, and only the pending load lands |
| `Machines.Machine.WriteMem` | code/machine/translate.cc:136-167 | exactly the bytes at the physical address change; on a failed check exactly the exception of that check is raised |
| `Machines.CharToInt` | code/machine/translate.cc:99-102 | a byte read is sign-extended |
| `Machines.ShortToInt` | code/machine/translate.cc:104-107 | a halfword read is not sign-extended |
| `Machines.Machine.LoadWordLeft` | code/machine/mipssim.cc:312-362 | the merged word is pending, merged with the newest value of the register even if that is itself pending |
| `Machines.Machine.LoadWordRight` | code/machine/mipssim.cc:364-418 | the same for the right half |
| `Machines.Machine.StoreWordLeft` | code/machine/mipssim.cc:552-609 | memory changes in the left part of the addressed word only |
| `Machines.Machine.StoreWordRight` | code/machine/mipssim.cc:611-668 | memory changes in the right part of the addressed word only |
| `Machines.Machine.StoreMerged` | code/machine/mipssim.cc:552-668 | read, merge and write back of the aligned word; it succeeds exactly if the word may be written |
| `Machines.Machine.LoadUnaligned` | code/machine/mipssim.cc:312-418 | LWL at A+3 and LWR at A load exactly the word at A, on one page or two, whether or not an interrupt flushes the pending load in between |
| `Machines.Machine.LoadLeftHalf` | code/machine/interrupt.cc:309-311 | the register's newest value is the same with and without the flush |
| `Machines.Machine.StoreUnaligned` | code/machine/mipssim.cc:552-668 | SWL at A+3 and SWR at A write exactly the four bytes A..A+3, on one page or two, and nothing else |
| `AddrSpaces.PhysInFrames` | code/userprog/addrspace.cc:101-117 | every byte of a space lies in a frame of the space |
| `AddrSpaces.PhysInjective` | code/userprog/addrspace.cc:101-117 | two bytes of a space are never at the same place |
| `AddrSpaces.OutsideUnseen` | code/userprog/addrspace.cc:101-117 | a space does not see changes outside its frames |
| `AddrSpaces.WriteSeen` | code/machine/translate.cc:136-167 | a write through the page table is a write at the same place of the flat memory of the space |
| `AddrSpaces.WriteUnseen` | code/machine/translate.cc:136-167 | and no other space sees it |
| `AddrSpaces.CheckIsBound` | code/machine/translate.cc:184-251 | in a space made by the constructor the only errors are misalignment and an address past the end |
| `AddrSpaces.DividedAdd` | code/userprog/addrspace.cc:101-117 | a new space leaves live spaces disjoint and the free frames exactly those nobody holds |
| `AddrSpaces.DividedRemove` | code/userprog/addrspace.cc:159-174 | so does destroying one |
| `AddrSpaces.MemoryManager.TakeFrames` | code/userprog/addrspace.cc:97-117 | every page gets a free frame of its own; the assertion fails exactly if there are too few |
| `AddrSpaces.MemoryManager.ZeroFrames` | code/userprog/addrspace.cc:119-126 | the new space shows zeros only, and no byte outside it changes |
| `AddrSpaces.MemoryManager.Create` | code/userprog/addrspace.cc:97-126 | over any history of spaces, creation succeeds exactly if the frames suffice, and leaves all other spaces' memory as it was |
| `AddrSpaces.MemoryManager.Destroy` | code/userprog/addrspace.cc:159-174 | gives back exactly the frames of the space |
| `AddrSpaces.MemoryManager.RestoreState` | code/userprog/addrspace.cc:426-430 | user addresses then refer to that space |
| `AddrSpaces.MemoryManager.UserLoad` | code/machine/translate.cc:85-120 | a load reads the flat memory of the running space, and fails exactly if misaligned or past the end |
| `AddrSpaces.MemoryManager.UserStore` | code/machine/translate.cc:136-167 | a store changes the flat memory of the running space at that place only, and no other space |
| `AddrSpaces.MemoryManager.Translate` | code/userprog/addrspace.cc:441-481 | the kernel's own translation agrees with the machine's for live spaces |
| `Lists.InsertSortedAt` | code/lib/list.cc:233-260 | the item goes before the first element that compares greater |
| `Lists.InsertSortedIsSorted` | code/lib/list.cc:233-260 | the list stays sorted, and the item is behind everything it compares equal to |
| `Lists.InsertSortedMembers` | code/lib/list.cc:233-260 | nothing is lost, added or duplicated but the item |
| `Lists.List.IsInList` | code/lib/list.cc:186-197 | answers membership |
| `Lists.List.Append` | code/lib/list.cc:74-89 | the item is at the end of the linked elements |
| `Lists.List.Prepend` | code/lib/list.cc:97-112 | the item is at the front |
| `Lists.List.RemoveFront` | code/lib/list.cc:124-142 | the first item is unlinked and returned |
| `Lists.List.Remove` | code/lib/list.cc:150-178 | exactly the given item is unlinked |
| `Lists.List.Unlink` | code/lib/list.cc:163-173 | relinking around an element, with `last` kept right |
| `Lists.List.Insert` | code/lib/list.cc:233-260 | relinking inserts the item as the sorted insertion of sequences does |
| `Lists.ListIterator.Next` | code/lib/list.h:120-137 | the iterator passes the items one by one in order |
| `Buckets.Framed` | code/lib/list.cc:73-178 | an operation on one list and its elements leaves the lists of a table valid and without a shared element, and the items of the others as they were |
| `Buckets.AppendTo` | code/lib/list.cc:73-89 | Append on a list of a table changes that list only, and adds new elements only |
| `Buckets.TakeFirst` | code/lib/list.cc:124-142 | so does RemoveFront |
| `Buckets.TakeOut` | code/lib/list.cc:150-178 | so does Remove |
| `Buckets.MoveFirst` | code/lib/hash.cc:145-148 | the first item of one list goes to the end of another, with all lists still separate |
| `Buckets.NewLists` | code/lib/hash.cc:42-52 | a table of new, empty, separate lists |
| `HashTables.HoldsMore` | code/lib/hash.cc:109-124 | adding an item to the bucket of its hash adds exactly one entry to the map that the buckets hold |
| `HashTables.HoldsLess` | code/lib/hash.cc:209-223 | taking an item out of its bucket removes exactly its entry |
| `HashTables.MoveOne` | code/lib/hash.cc:135-153 | while rehashing, old and new buckets together hold the map |
| `HashTables.FlatIsEveryItemOnce` | code/lib/hash.cc:331-360 | walking through the buckets meets every item of the map, and none twice |
| `HashTables.RatioReached` | code/lib/hash.cc:116-118 | the integer division in the resize test is met exactly at three items per bucket |
| `HashTables.HashTable.constructor` | code/lib/hash.cc:28-52 | the table starts as the empty map |
| `HashTables.HashTable.Find` | code/lib/hash.cc:167-198 | finds exactly what the map has for the key |
| `HashTables.HashTable.Insert` | code/lib/hash.cc:109-124 | the map has the item added, across any rehash, with the lists separate and at most three items per bucket |
| `HashTables.HashTable.ReHash` | code/lib/hash.cc:135-153 | four times as many new lists, no two sharing an element, hold the same map |
| `HashTables.MoveAll` | code/lib/hash.cc:135-153 | the two loops empty every old list, and the new ones hold the map |
| `HashTables.Empty` | code/lib/hash.cc:145-148 | the inner loop empties one list and keeps the map divided between the tables |
| `HashTables.HashTable.Remove` | code/lib/hash.cc:209-223 | returns the item of the key, and the map is without it |
| `HashTables.HashTable.FindNextFullBucket` | code/lib/hash.cc:250-259 | skips exactly the empty buckets |
| `HashTables.HashIterator.Next` | code/lib/hash.cc:348-360 | passes exactly one item |
| `HashTables.VisitAll` | code/lib/hash.cc:331-360 | an iterator visits each item of the table exactly once |
| `Interrupts.ScheduleKeepsHistory` | code/machine/interrupt.cc:256-268 | an interrupt scheduled for later goes behind all that are due by then, so that everything fired and pending stays in order of due time and of scheduling |
| `Interrupts.FireKeepsHistory` | code/machine/interrupt.cc:312-322 | so it does when the first pending one fires |
| `Interrupts.AtMostOnceInOrder` | code/machine/interrupt.cc:280-322 | no interrupt fires twice, and firing is in order of due time, ties in order of scheduling |
| `Interrupts.DueHaveFired` | code/machine/interrupt.cc:280-322 | after a check exactly the interrupts due by now have fired |
| `Interrupts.LaterNotDue` | code/machine/interrupt.cc:312-322 | handlers do not add to what is due, which is why the loop ends |
| `Interrupts.Interrupt.Schedule` | code/machine/interrupt.cc:256-268 | one more interrupt is on the linked list of the pending ones, at the place of the sorted insertion |
| `Interrupts.Interrupt.Fire` | code/machine/interrupt.cc:313-318 | the first pending interrupt is unlinked and fires, not early; exactly what its handler schedules is added, and none of it is due |
| `Interrupts.Interrupt.FireAllDue` | code/machine/interrupt.cc:312-322 | the loop ends with nothing due left |
| `Interrupts.Interrupt.CheckIfDue` | code/machine/interrupt.cc:280-322 | fires all that is due, with the clock moved to the next interrupt only when asked to, and returns whether any fired |
| `Interrupts.Interrupt.OneTick` | code/machine/interrupt.cc:147-176 | time passes by 10 or 1 in the right counter, total time stays idle plus system plus user time, nothing due is left, and a context switch follows exactly if a handler asked for it |
| `Interrupts.Interrupt.SetLevel` | code/machine/interrupt.cc:123-137 | returns the old level; time passes exactly when interrupts become enabled; a handler may turn them off, but not on |
| `Interrupts.Interrupt.Idle` | code/machine/interrupt.cc:207-226 | halts exactly if nothing is pending; otherwise the next interrupt has fired |
| `DiskTiming.ModuloDiffIsLeast` | code/machine/disk.cc:199-206 | the least number of slots to the target sector |
| `DiskTiming.NextSlotAfter` | code/machine/disk.cc:229-250 | rounding up and adding the rotational delay finds the sector's first slot from a time on |
| `DiskTiming.UnbufferedLatency` | code/machine/disk.cc:229-250 | without the buffer a request takes the seek, the least wait for the sector's slot, and one transfer |
| `DiskTiming.HitIffSlotBegun` | code/machine/disk.cc:229-250 | a read hits the buffer exactly if it is on the track and the sector's first slot since loading began has begun |
| `DiskTiming.HitMeansPassedIff` | code/machine/disk.cc:229-250 | a hit means that the slot has fully passed exactly if the request is not made inside that slot; by completion it has passed in any case |
| `DiskTiming.HitBeforePassed` | code/machine/disk.cc:229-250 | a hit on a slot that has not fully passed |
| `DiskTiming.Disk.Request` | code/machine/disk.cc:113-151 | the latency, and that the buffer's start stays a multiple of the rotation time and not later than completion |
| `DiskTiming.Disk.CallBack` | code/machine/disk.cc:158-163 | at the next request the buffer's start is not in the future |
| `Threads.TestPPlaces` | code/threads/synch.cc:75-94 | the body of P keeps every thread in one place |
| `Threads.TestPCounted` | code/threads/synch.cc:75-94 | P keeps the count of the semaphore, also for newcomers that overtake woken threads |
| `Threads.DoVCounted` | code/threads/synch.cc:102-117 | V keeps it, since it wakes a thread whenever one waits |
| `Threads.YieldKeeps` | code/threads/thread.cc:225-243 | Yield keeps every thread in one place, and the scheduler is called with interrupts off |
| `Threads.ForkKeeps` | code/threads/thread.cc:115-130 | so does Fork, and ReadyToRun is called with interrupts off |
| `Threads.HandlerVKeeps` | code/machine/interrupt.cc:164-168 | so does a V inside an interrupt handler, which runs with interrupts off, and the level of the interrupted thread is restored |
| `Threads.FinishKeeps` | code/threads/thread.cc:195-206 | so does Finish |
| `Threads.DispatchKeeps` | code/threads/scheduler.cc:103-128 | so does Run, with nothing left to be destroyed from before |
| `Threads.ResumeKeeps` | code/threads/scheduler.cc:130-167 | so does coming back from the switch, which deletes a finished thread |
| `Threads.EveryStateOfEveryRun` | code/threads/synch.cc:75-117 | in every reachable state value = initial + completed Vs - completed Ps >= 0, a queued thread implies that value is at most the number of threads woken and not yet rerun, every thread is in one place, interrupts are on only while a thread runs outside of the kernel's operations, and no assertion has failed, those of the scheduler and of Sleep that interrupts are off included |
| `Threads.ExactlyOnePlace` | code/threads/scheduler.cc:56-150 | running, ready, on one queue, not yet forked or finishing: exactly one of these, once |
| `Threads.SemaphoreStep` | code/threads/synch.cc:75-117 | every step of the kernel is no step, one V, or one P at a positive value of each semaphore |
| `Threads.InUntilReturn` | code/threads/synch.cc:75-117 | a thread in P or V leaves it only by running, and then has the level it called with |
| `Threads.LevelRestored` | code/threads/synch.cc:75-117 | P and V return with the interrupt level they were called with, whatever ran meanwhile |
| `Threads.FinishVKeeps` | code/threads/synch.cc:102-117 | the body of V, which wakes one thread if any waits, keeps every thread in one place |
| `Locks.MutualExclusion` | code/threads/synch.cc:181-203 | at most one thread is between Acquire and Release, and the holder, when set, is that thread |
| `Locks.StepKeepsInv` | code/threads/synch.cc:181-203 | each half of Acquire and Release keeps that |
| `Locks.EveryStateOfEveryRun` | code/threads/synch.cc:181-203 | in every interleaving |
| `Locks.UseStepKeeps` | code/threads/synch.cc:181-203 | a program whose threads take these steps where their program counters say so has the lock held exactly where they say so |
| `Locks.OnlyUser` | code/threads/synch.cc:181-203 | while one thread of such a program has the lock or is releasing it, no other is inside |
| `SynchDisks.DiskIdle` | code/filesys/synchdisk.cc:57-82 | a thread past Acquire finds the disk idle |
| `SynchDisks.EveryStateOfEveryRun` | code/filesys/synchdisk.cc:57-94 | in every interleaving no request is made while one is active |
| `SynchDisks.ReadsReturnLastWrite` | code/filesys/synchdisk.cc:57-94 | a read that returns brings what the last earlier write to its sector wrote, in one order of all requests |
| `SynchLists.LockStepKeeps` | code/threads/synch.cc:181-203 | Acquire and Release, in the list and inside Wait, keep the invariant of the list |
| `SynchLists.DoSignalKeeps` | code/threads/synch.cc:273-283 | so does Signal, whose caller has the lock: one more consumer is on its way |
| `SynchLists.DoTestKeeps` | code/threads/synchlist.cc:71-81 | so does the test of the consumer, which calls Wait, with the lock, and joins the queue only at an empty list |
| `SynchLists.WakeUpKeeps` | code/threads/synch.cc:244-257 | so does waking up inside Wait |
| `SynchLists.EveryStateOfEveryRun` | code/threads/synchlist.cc:51-81 | in every interleaving of producers and consumers |
| `SynchLists.FirstInFirstOutNoneStranded` | code/threads/synchlist.cc:51-81 | items removed are a prefix of items appended, RemoveFront never meets an empty list, and with the lock free a waiting consumer implies no more items than signalled consumers, each of which can go on |
| `ProcessTables.EveryStateOfEveryRun` | code/threads/ptable.cc:16-173 | the invariant of blocks, slots, counts and semaphores in every interleaving of Exec, Join and Exit |
| `ProcessTables.JoinReturnsExitCode` | code/threads/ptable.cc:115-130 | a parent's Join on its child reads a block still in the table and returns what the child passed to Exit |
| `ProcessTables.LookupsAndJoinsAreRight` | code/threads/ptable.cc:80-130 | every lookup in the table finds the block that is meant, and no finished Join disagrees with Exit |
| `ProcessTables.RemoveAfterParentReleased` | code/threads/ptable.cc:95-109 | a process reaches Remove only after its parent's exitsem was released, in the parent's own ExitUpdate |
| `ProcessTables.ShouldExitIffNoneWait` | code/threads/pcb.cc:118-143 | outside multex sections numwait counts the children that have not decremented it, and shouldExit is 1 exactly if there are none |
| `ProcessTables.IncNeverBlocks` | code/threads/pcb.cc:118-130 | IncNumWait does not block on shouldExit while it holds multex |
| `ProcessTables.RemovedAfterChildren` | code/threads/pcb.cc:132-176 | a block is removed only after every child has decremented its count and done its V on shouldExit |
| `ProcessTables.ChildrenLeftDecIff` | code/threads/pcb.cc:132-143 | then every child has left DecNumWait exactly if multex is free |
| `ProcessTables.CanDangleIff` | code/threads/ptable.cc:95-109 | the next step can use a deleted block exactly if some process that is still to use its parent's block has a parent whose block is deleted |
| `ProcessTables.SafeWhileOnlyMainHasChildren` | code/threads/ptable.cc:80-109 | no step uses a deleted block while only the main process has children |
| `ProcessTables.ParentThere` | code/threads/ptable.cc:95-101 | a process that has not counted itself out finds its parent's block |
| `ProcessTables.ChildThere` | code/threads/ptable.cc:115-130 | a child's block stays until its parent has let its children exit |
| `DanglingBlocks.DeletedWhileInUse` | code/threads/ptable.cc:95-109 | for every table size from three on, a run in which a block is deleted between a child's V on shouldExit and its V on multex |
| `DanglingBlocks.DeletedBeforeExitWait` | code/threads/ptable.cc:95-109 | and one in which it is deleted after the V on multex, before the child's ExitWait on it |
| `DanglingBlocks.DanglesIffThreeSlots` | code/threads/ptable.cc:16-173 | some run uses a deleted block exactly if the table has three slots or more |
| `Mails.HeaderRoundTrip` | code/network/post.cc:299-329 | a header survives its bytes |
| `Mails.WireRoundTrip` | code/machine/network.cc:158-182 | the receiving device gets packet header and payload back from the padded wire packet |
| `Mails.PayloadRoundTrip` | code/network/post.cc:190-216 | the postal worker gets mail header and data back from the payload |
| `Senders.BusyIsNeverSeen` | code/machine/network.cc:140-182 | in every run of the device its assertion holds and sendBusy is off, however sends overlap |
| `Senders.OverlapUnnoticed` | code/machine/network.cc:158-182 | two sends of any message can overlap on the device, with no assertion failing |
| `Senders.TransmitKeeps` | code/network/post.cc:320-322 | handing a packet to the device keeps the invariant of lock, device and messageSent |
| `Senders.CallBackKeeps` | code/network/post.cc:339-343 | so does the interrupt |
| `Senders.EveryStateOfEveryRun` | code/network/post.cc:299-343 | in every interleaving of threads that send and of interrupts |
| `Senders.OneAtATime` | code/network/post.cc:299-343 | at most one packet is between Send and its interrupt, messageSent is 0 or 1, no assertion fails, and a Send about to return has had the interrupt of the packet with its own message |
| `PostOffices.CallBackKeeps` | code/machine/network.cc:60-87 | the inbox is filled only when empty, from the oldest packet, and announced once |
| `PostOffices.ReceivesKeeps` | code/machine/network.cc:93-103 | the worker never receives an empty packet |
| `PostOffices.DeliversMessage` | code/network/post.cc:190-216 | the worker puts exactly the message that was sent into the box it names |
| `PostOffices.EveryStateOfEveryRun` | code/network/post.cc:97-137 | in every run of sending threads on any number of machines, their locks and devices, the link, the worker and receivers |
| `PostOffices.SendKeeps` | code/machine/network.cc:158-182 | a packet handed to the network, lost or not, keeps the invariant |
| `PostOffices.ShareSubsequence` | code/network/post.cc:97-137 | one sender's share of a subsequence is a subsequence of that sender's messages |
| `PostOffices.DeliveredInOrder` | code/network/post.cc:97-137 | the messages taken from a box that came from one machine are, headers and data intact, an in-order subsequence of what the threads of that machine handed to its network device for that box |

## Left out

- The file system is used by one thread at a time here; that the sectors behave so under concurrency is `SynchDisks`.
- FileSystems.FileSystem.Create: a size over the maximum is outside its precondition, since the code does not check it against the number of entries in a header.
- Integers that are sums of a position and a count are unbounded: overflow of a signed int is undefined in the source.
- Bytes that the source writes without having set them (padding and unused names of directory entries, the slack after the end of a file) are zero or arbitrary.
- Header and directory tables are sequences in a field, not arrays; updates through an alias of them are not modelled.
- Writing through an open file whose file has been removed.
- The translation lookaside buffer, instruction fetch and decoding, program counters, and the instructions other than the unaligned pairs and the multiplication.
- SRL and SRLV, which shift a signed value.
- Loading of executables into address spaces, the address space without an executable, and the use of `addrLock`.
- HashTables: the bucket array, which is not written after its lists are made, is a sequence of list objects. The destructor and Apply are not modelled, and old lists are not deallocated.
- Machines.Machine.RaiseException: the switch to system mode and the exception handler of the kernel are not modelled.
- Lists: the comparison function of a sorted list is an argument of Insert, and a removed element is not deallocated.
- Interrupts: what handlers do besides scheduling and asking for a context switch is in the machines above; the context switch itself is in `Threads`.
- Threads, Locks, SynchDisks, SynchLists, ProcessTables, Senders, PostOffices: step machines on values, not objects; aliasing of threads and semaphores is by number.
- Threads: stacks, saved registers and the deletion of address spaces; deleting a finished thread is one step. Semaphores are not deleted.
- Condition.Broadcast, which no modelled component uses.
- SynchLists: a producer whose item is already on the list stops there, as the assertion of the list demands.
- ProcessTables: sections guarded by `bmsem` are one step each; a process joins its own children only; arguments, file names and the opening of the executable are not modelled; nothing is said after a use of a deleted block.
- PostOffices: a message to a box that does not exist stops the receiver. Sockets are a queue. Calls that fail an assertion of PostOfficeOutput::Send are not made.
- The console, system calls and their dispatch, file descriptor and semaphore tables, host wrappers, debugging output and self tests.
